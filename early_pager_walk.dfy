/** The earlier announcement-list walker of testGPT.py. For each page it prints the page
    number and one line per table row, then checks the next button and either stops or
    clicks it and waits for the active pager item to change. Only the pager-text read and
    the first wait after a click are guarded: any other read that throws ends the walk
    with that exception. The pages it meets are given in advance, one record per
    iteration. */
module EarlyPagerWalk {
  import opened Wrappers
  import opened Text
  import opened Dom
  import PagerWalk

  /** What one iteration of the loop observes. `activePager` is the read of the active
      pager item's text; `transition` is how the wait for that item to change ends. */
  datatype Page = Page(
    rows: seq<RowProbe>,
    button: NextButton,
    activePager: Read<string>,
    transition: Transition)

  /** Why the walk ended. `Crashed`: an unguarded read or wait threw. `PagesExhausted`:
      the given pages ran out while the walk went on. */
  datatype End = LastPage | Crashed | PagesExhausted

  /** What the walk prints, and its clicks. A row's link is printed as the raw attribute,
      so it may be `None`. */
  datatype Event =
    | Header(pageNo: nat)
    | RowLine(when: string, title: string, href: Option<string>)
    | Clicked(fingerprint: string)
    | Ended(end: End)

  /** The line of one row (testGPT.py:49-56), or `None` when one of its reads throws. The
      two counts are read first, then the title text, the `href` attribute and the time
      text. An absent title or time reads as `""`; the link of a row without a title link
      is `""`, and a missing attribute stays `None`. */
  function RowLineOf(row: RowProbe): Option<Event> {
    if row.title.LinkCountThrew? || row.time.TimeCountThrew? then None
    else if row.title.Link? && (row.title.text.Threw? || row.title.href.Threw?) then None
    else if row.time.Time? && row.time.text.Threw? then None
    else
      Some(RowLine(
        if row.time.Time? then Strip(row.time.text.value, PyWhitespace) else "",
        if row.title.Link? then Strip(row.title.text.value, PyWhitespace) else "",
        if row.title.Link? then row.title.href.value else Some("")))
  }

  /** A row fails exactly when one of its four reads throws; a row that is read prints its
      stripped texts, or `""` for an absent element. */
  lemma RowFailsWhen(row: RowProbe)
    ensures RowLineOf(row).None? <==>
      || row.title.LinkCountThrew? || row.time.TimeCountThrew?
      || (row.title.Link? && (row.title.text.Threw? || row.title.href.Threw?))
      || (row.time.Time? && row.time.text.Threw?)
    ensures RowLineOf(row).Some? ==> RowLineOf(row).value.RowLine?
    ensures RowLineOf(row).Some? && row.title.NoLink? ==>
      RowLineOf(row).value.title == "" && RowLineOf(row).value.href == Some("")
    ensures RowLineOf(row).Some? && row.time.NoTime? ==> RowLineOf(row).value.when == ""
  {
  }

  /** The lines printed for a run of rows, and whether a row's read threw. */
  datatype Rows = Rows(lines: seq<Event>, crashed: bool)

  /** The row loop of testGPT.py:44-56: one line per row until a row fails. */
  function RowsOf(rows: seq<RowProbe>): Rows
    decreases |rows|
  {
    if rows == [] then Rows([], false)
    else
      match RowLineOf(rows[0])
      case None => Rows([], true)
      case Some(line) =>
        var rest := RowsOf(rows[1..]);
        Rows([line] + rest.lines, rest.crashed)
  }

  /** The rows before the first failing one are printed, in order, and nothing after it:
      the walk crashes at the first row with a read that throws, and only there. */
  lemma {:induction false} RowsPrintedUntilFirstFailure(rows: seq<RowProbe>)
    ensures var r := RowsOf(rows);
      && |r.lines| <= |rows|
      && (forall i :: 0 <= i < |r.lines| ==> RowLineOf(rows[i]) == Some(r.lines[i]))
      && (r.crashed <==> |r.lines| < |rows|)
      && (r.crashed ==> RowLineOf(rows[|r.lines|]).None?)
    decreases |rows|
  {
    if rows != [] && RowLineOf(rows[0]).Some? {
      RowsPrintedUntilFirstFailure(rows[1..]);
      var r := RowsOf(rows);
      var rest := RowsOf(rows[1..]);
      forall i | 0 <= i < |r.lines|
        ensures RowLineOf(rows[i]) == Some(r.lines[i])
      {
        if i > 0 {
          assert r.lines[i] == rest.lines[i - 1] && rows[i] == rows[1..][i - 1];
        }
      }
      if r.crashed {
        assert rows[|r.lines|] == rows[1..][|rest.lines|];
      }
    }
  }

  /** The row loop of testGPT.py:44-56. */
  method PrintRows(rows: seq<RowProbe>) returns (lines: seq<Event>, crashed: bool)
    ensures Rows(lines, crashed) == RowsOf(rows)
  {
    lines := [];
    crashed := false;
    assert rows[0..] == rows;
    for i := 0 to |rows|
      invariant RowsOf(rows) == Rows(lines + RowsOf(rows[i..]).lines, RowsOf(rows[i..]).crashed)
    {
      assert rows[i..][0] == rows[i] && rows[i..][1..] == rows[i + 1..];
      var line := RowLineOf(rows[i]);
      if line.None? {
        assert lines + [] == lines;
        crashed := true;
        return;
      }
      assert lines + ([line.value] + RowsOf(rows[i + 1..]).lines)
        == (lines + [line.value]) + RowsOf(rows[i + 1..]).lines;
      lines := lines + [line.value];
    }
    assert rows[|rows|..] == [];
    assert lines + [] == lines;
  }

  /** The outcome of the next-button check of testGPT.py:59-65. */
  datatype Check = Crash | Last | Next

  /** Both probes are taken before either is looked at, and neither is guarded. On a page
      without a next button `is_disabled()` has no element to probe and throws. */
  function CheckButton(b: NextButton): Check {
    match b
    case Button(Got(disabled), Got(cls)) =>
      if disabled || HasSubstring(ClassText(cls), "disabled") then Last else Next
    case _ => Crash
  }

  /** The walk stops at a page exactly when the disabled probe is true or the class
      attribute (missing reads as `""`) contains `disabled`; it crashes when either probe
      throws, even if the other one alone would have ended the walk. */
  lemma CheckStopsWhen(b: NextButton)
    ensures CheckButton(b) == Last <==>
      b.Button? && b.disabled.Got? && b.cls.Got? &&
      (b.disabled.value || Contains(ClassText(b.cls.value), "disabled"))
    ensures CheckButton(b) == Crash <==> b.NoButton? || b.disabled.Threw? || b.cls.Threw?
  {
    if b.Button? && b.cls.Got? {
      HasSubstringIffContains(ClassText(b.cls.value), "disabled");
    }
  }

  /** The text the wait after a click compares against (testGPT.py:68-73): the active
      pager item's stripped text, or `""` when reading it throws. */
  function Fingerprint(p: Page): (fp: string)
    ensures p.activePager.Threw? ==> fp == ""
    ensures p.activePager.Got? ==> fp == Strip(p.activePager.value, PyWhitespace)
  {
    match p.activePager
    case Got(text) => Strip(text, PyWhitespace)
    case Threw => ""
  }

  /** What one iteration prints, and how the walk ends there, if it does. */
  datatype Iteration = Iteration(events: seq<Event>, ended: Option<End>)

  /** How the walk ends at a page, if it does: a row read or a button probe that throws,
      a button check that finds the last page, or, after the click, a timeout of the
      pager wait followed by one of the final row wait (testGPT.py:94), which is not
      caught; the loading-mask wait between them is. */
  function EndAt(p: Page): Option<End> {
    var check := CheckButton(p.button);
    if RowsOf(p.rows).crashed || check == Crash then Some(Crashed)
    else if check == Last then Some(LastPage)
    else if p.transition == Fallback(false) then Some(Crashed)
    else None
  }

  /** One iteration of testGPT.py:38-96: the page, the click when the rows were read and
      the button check says to go on, and the end of the walk when it ends there. */
  function StepOf(p: Page, pageNo: nat): Iteration {
    var rows := RowsOf(p.rows);
    var clicks := !rows.crashed && CheckButton(p.button) == Next;
    var ended := EndAt(p);
    Iteration(
      [Header(pageNo)] + rows.lines
      + (if clicks then [Clicked(Fingerprint(p))] else [])
      + (if ended.Some? then [Ended(ended.value)] else []),
      ended)
  }

  /** An iteration hands over to the next page exactly when its rows are all read, its
      button check says to go on and the wait after the click does not fail. */
  predicate Continues(p: Page) {
    EndAt(p).None?
  }

  /** The walk goes on past a page exactly when its rows are all read, its button check
      says to go on and the wait after the click does not fail; it stops at the last page
      only when every row was read. */
  lemma EndAtWhen(p: Page)
    ensures EndAt(p).None? <==>
      !RowsOf(p.rows).crashed && CheckButton(p.button) == Next && p.transition != Fallback(false)
    ensures EndAt(p) == Some(LastPage) <==> !RowsOf(p.rows).crashed && CheckButton(p.button) == Last
    ensures EndAt(p) != Some(PagesExhausted)
  {
  }

  datatype Walked = Walked(trace: seq<Event>, end: End)

  /** The walk from page number `pageNo` over the pages still to come. */
  function Walk(pages: seq<Page>, pageNo: nat): Walked
    decreases |pages|
  {
    if pages == [] then Walked([], PagesExhausted)
    else
      var step := StepOf(pages[0], pageNo);
      if step.ended.Some? then Walked(step.events, step.ended.value)
      else
        var rest := Walk(pages[1..], pageNo + 1);
        Walked(step.events + rest.trace, rest.end)
  }

  /** One iteration of testGPT.py:38-96. */
  method VisitPage(p: Page, pageNo: nat) returns (events: seq<Event>, ended: Option<End>)
    ensures Iteration(events, ended) == StepOf(p, pageNo)
  {
    var lines, crashed := PrintRows(p.rows);
    events := [Header(pageNo)] + lines;
    var click: seq<Event> := [];
    ended := None;
    if crashed {
      ended := Some(Crashed);
    } else {
      var check := CheckButton(p.button);
      if check == Crash {
        ended := Some(Crashed);
      } else if check == Last {
        ended := Some(LastPage);
      } else {
        click := [Clicked(Fingerprint(p))];
        if p.transition == Fallback(false) {
          ended := Some(Crashed);
        }
      }
    }
    events := events + click;
    if ended.Some? {
      events := events + [Ended(ended.value)];
    } else {
      assert events + [] == events;
    }
  }

  /** The loop of testGPT.py:37-96, from page 1. */
  method PaginationWalk(pages: seq<Page>) returns (trace: seq<Event>, end: End)
    ensures Walked(trace, end) == Walk(pages, 1)
  {
    trace := [];
    var pageNo := 1;
    var k := 0;
    assert pages[0..] == pages;
    while k < |pages|
      invariant 0 <= k <= |pages| && pageNo == k + 1
      invariant Walk(pages, 1).trace == trace + Walk(pages[k..], pageNo).trace
      invariant Walk(pages, 1).end == Walk(pages[k..], pageNo).end
      decreases |pages| - k
    {
      assert pages[k..][0] == pages[k] && pages[k..][1..] == pages[k + 1..];
      var events, ended := VisitPage(pages[k], pageNo);
      if ended.Some? {
        trace := trace + events;
        end := ended.value;
        return;
      }
      ghost var rest := Walk(pages[k + 1..], pageNo + 1).trace;
      assert trace + (events + rest) == (trace + events) + rest;
      trace := trace + events;
      pageNo := pageNo + 1;
      k := k + 1;
    }
    assert pages[k..] == [];
    end := PagesExhausted;
  }

  /** The index of the first page at which the walk ends, or the number of pages when it
      goes through all of them: every page before it hands over, and the page at it
      does not. */
  function StopIndex(pages: seq<Page>): (k: nat)
    ensures k <= |pages|
    ensures forall i :: 0 <= i < k ==> Continues(pages[i])
    ensures k < |pages| ==> !Continues(pages[k])
    decreases |pages|
  {
    if pages == [] || !Continues(pages[0]) then 0 else 1 + StopIndex(pages[1..])
  }

  /** The page numbers printed, in order. */
  function Headers(trace: seq<Event>): seq<nat>
  {
    if trace == [] then []
    else (if trace[0].Header? then [trace[0].pageNo] else []) + Headers(trace[1..])
  }

  lemma {:induction false} HeadersAppend(a: seq<Event>, b: seq<Event>)
    ensures Headers(a + b) == Headers(a) + Headers(b)
  {
    if a == [] {
      assert a + b == b;
    } else {
      assert (a + b)[0] == a[0] && (a + b)[1..] == a[1..] + b;
      HeadersAppend(a[1..], b);
    }
  }

  lemma {:induction false} NoHeaders(s: seq<Event>)
    requires forall i :: 0 <= i < |s| ==> !s[i].Header?
    ensures Headers(s) == []
  {
    if s != [] {
      NoHeaders(s[1..]);
    }
  }

  /** Each iteration prints its own page number once, as its first event. */
  lemma StepHasOneHeader(p: Page, pageNo: nat)
    ensures Headers(StepOf(p, pageNo).events) == [pageNo]
  {
    var rows := RowsOf(p.rows);
    var ended := EndAt(p);
    var click: seq<Event> := if !rows.crashed && CheckButton(p.button) == Next then [Clicked(Fingerprint(p))] else [];
    var last: seq<Event> := if ended.Some? then [Ended(ended.value)] else [];
    assert StepOf(p, pageNo).events == [Header(pageNo)] + rows.lines + click + last;
    RowsHaveNoHeader(p.rows);
    NoHeaders(click);
    NoHeaders(last);
    assert Headers([Header(pageNo)]) == [pageNo] by {
      assert [Header(pageNo)][1..] == [];
    }
    HeadersAppend([Header(pageNo)], rows.lines);
    HeadersAppend([Header(pageNo)] + rows.lines, click);
    HeadersAppend([Header(pageNo)] + rows.lines + click, last);
  }

  /** The row loop prints row lines only. */
  lemma RowsHaveNoHeader(rows: seq<RowProbe>)
    ensures Headers(RowsOf(rows).lines) == []
  {
    var lines := RowsOf(rows).lines;
    RowsPrintedUntilFirstFailure(rows);
    forall i | 0 <= i < |lines|
      ensures !lines[i].Header?
    {
      RowFailsWhen(rows[i]);
    }
    NoHeaders(lines);
  }

  /** The walk ends at the first page that does not hand over to the next, for the
      reason that iteration gives; when every page hands over, it runs out of pages. */
  lemma {:induction false} WalkEndsAtFirstStop(pages: seq<Page>, pageNo: nat)
    ensures StopIndex(pages) < |pages| ==> EndAt(pages[StopIndex(pages)]) == Some(Walk(pages, pageNo).end)
    ensures StopIndex(pages) == |pages| ==> Walk(pages, pageNo).end == PagesExhausted
    decreases |pages|
  {
    if pages != [] {
      WalkStep(pages, pageNo);
      if Continues(pages[0]) {
        WalkEndsAtFirstStop(pages[1..], pageNo + 1);
        var k := StopIndex(pages[1..]);
        if k < |pages[1..]| {
          assert pages[1..][k] == pages[k + 1];
        }
      }
    }
  }

  /** The first iteration of a walk over a non-empty page list. */
  lemma WalkStep(pages: seq<Page>, pageNo: nat)
    requires pages != []
    ensures !Continues(pages[0]) ==>
      && Walk(pages, pageNo).trace == StepOf(pages[0], pageNo).events
      && Walk(pages, pageNo).end == EndAt(pages[0]).value
    ensures Continues(pages[0]) ==>
      && Walk(pages, pageNo).trace == StepOf(pages[0], pageNo).events + Walk(pages[1..], pageNo + 1).trace
      && Walk(pages, pageNo).end == Walk(pages[1..], pageNo + 1).end
  {
  }

  /** What the first iteration adds to the headers of a walk. */
  lemma WalkHeadersStep(pages: seq<Page>, pageNo: nat)
    requires pages != []
    ensures !Continues(pages[0]) ==> Headers(Walk(pages, pageNo).trace) == [pageNo]
    ensures Continues(pages[0]) ==>
      Headers(Walk(pages, pageNo).trace) == [pageNo] + Headers(Walk(pages[1..], pageNo + 1).trace)
  {
    StepHasOneHeader(pages[0], pageNo);
    WalkStep(pages, pageNo);
    if Continues(pages[0]) {
      HeadersAppend(StepOf(pages[0], pageNo).events, Walk(pages[1..], pageNo + 1).trace);
    }
  }

  /** `page_no` goes up by exactly one per completed iteration: the pages visited are
      numbered consecutively from `pageNo`, up to and including the one where the walk
      ends. */
  lemma {:induction false} WalkNumbersPages(pages: seq<Page>, pageNo: nat)
    ensures var k := StopIndex(pages);
      |Headers(Walk(pages, pageNo).trace)| == if k < |pages| then k + 1 else k
    ensures forall i :: 0 <= i < |Headers(Walk(pages, pageNo).trace)| ==> Headers(Walk(pages, pageNo).trace)[i] == pageNo + i
    decreases |pages|
  {
    if pages != [] {
      WalkHeadersStep(pages, pageNo);
      if Continues(pages[0]) {
        WalkNumbersPages(pages[1..], pageNo + 1);
        var headers, rest := Headers(Walk(pages, pageNo).trace), Headers(Walk(pages[1..], pageNo + 1).trace);
        assert StopIndex(pages) == StopIndex(pages[1..]) + 1;
        forall i | 0 <= i < |headers| ensures headers[i] == pageNo + i {
          if i > 0 {
            assert headers[i] == rest[i - 1];
          }
        }
      } else {
        assert StopIndex(pages) == 0;
      }
    }
  }

  /** A timeout of the final row wait after a click is not caught: the walk ends there,
      right after the click, whatever pages follow. */
  lemma FallbackTimeoutEndsWalk(p: Page, rest: seq<Page>, pageNo: nat)
    requires !RowsOf(p.rows).crashed && CheckButton(p.button) == Next
    requires p.transition == Fallback(false)
    ensures var w := Walk([p] + rest, pageNo);
      && w.end == Crashed
      && |w.trace| >= 2
      && w.trace[|w.trace| - 2..] == [Clicked(Fingerprint(p)), Ended(Crashed)]
  {
    var pages := [p] + rest;
    assert pages[0] == p;
    assert EndAt(p) == Some(Crashed);
    WalkStep(pages, pageNo);
    var shown := [Header(pageNo)] + RowsOf(p.rows).lines;
    var events := StepOf(p, pageNo).events;
    assert events == shown + [Clicked(Fingerprint(p))] + [Ended(Crashed)];
    assert events[|events| - 2..] == [Clicked(Fingerprint(p)), Ended(Crashed)];
  }

  /** A row whose link has no `href` attribute prints `None` here, where the later walker
      of testGPT2.py prints `""`. */
  lemma MissingHrefPrintedAsNone(text: string, time: string)
    ensures var row := RowProbe(Link(Got(text), Got(None)), Time(Got(time)));
      && RowLineOf(row) == Some(RowLine(Strip(time, PyWhitespace), Strip(text, PyWhitespace), None))
      && PagerWalk.LineOf(row).href == ""
  {
  }
}
