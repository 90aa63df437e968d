/** The announcement-list walker of testGPT2.py: for each page it prints the page number,
    one line per table row (time, title, link), and then either stops or clicks the next
    button and waits for the table to change. Every read of a row is guarded, so a row
    that cannot be read still gets its line, with empty fields; no wait failure ends the
    walk. The pages it meets are given in advance, one record per iteration. */
module PagerWalk {
  import opened Wrappers
  import opened Text
  import opened Dom

  /** What one iteration of the loop observes. `firstTitle` is the first title link of the
      whole table (`None` when there is none); `transition` is how the wait for the first
      title to change ends. */
  datatype Page = Page(
    rowsVisible: bool,
    rows: seq<RowProbe>,
    firstTitle: Read<Option<string>>,
    button: NextButton,
    transition: Transition)

  /** Why the walk ended. `Crashed`: both button probes threw, and the second one is not
      guarded. `PagesExhausted`: the given pages ran out while the walk went on. */
  datatype End = NoNextButton | ButtonDisabled | ButtonClassDisabled | Crashed | PagesExhausted

  /** What the walk prints, and its clicks. */
  datatype Event =
    | Header(pageNo: nat)
    | RowsNotVisible
    | NoRows
    | TitleReadError(row: nat)
    | RowLine(when: string, title: string, href: string)
    | Clicked(fingerprint: string)
    | RowsWaitTimedOut
    | Ended(end: End)

  /** The title and link of a row (testGPT2.py:58-67): both default to `""`; a missing
      `href` reads as `""`; a read that throws keeps what was read before it. */
  function TitleAndHref(t: TitleProbe): (r: (string, string))
    ensures t.NoLink? || t.LinkCountThrew? ==> r == ("", "")
    ensures t.Link? && t.text.Threw? ==> r == ("", "")
    ensures t.Link? && t.text.Got? ==> r.0 == Strip(t.text.value, PyWhitespace)
    ensures t.Link? && t.text.Got? && t.href.Got? && t.href.value.Some? ==> r.1 == t.href.value.value
    ensures !(t.Link? && t.text.Got? && t.href.Got? && t.href.value.Some?) ==> r.1 == ""
  {
    match t
    case Link(Got(text), href) =>
      var title := Strip(text, PyWhitespace);
      (title, if href.Got? && href.value.Some? then href.value.value else "")
    case _ => ("", "")
  }

  /** The title read of a row raised (and the error line is printed). */
  predicate TitleFailed(t: TitleProbe) {
    t.LinkCountThrew? || (t.Link? && (t.text.Threw? || t.href.Threw?))
  }

  /** The time of a row (testGPT2.py:69-73): `""` when absent or when reading throws. */
  function When(t: TimeProbe): (r: string)
    ensures t.Time? && t.text.Got? ==> r == Strip(t.text.value, PyWhitespace)
    ensures !(t.Time? && t.text.Got?) ==> r == ""
  {
    match t
    case Time(Got(text)) => Strip(text, PyWhitespace)
    case _ => ""
  }

  /** The line printed for a row. */
  function LineOf(row: RowProbe): Event {
    var (title, href) := TitleAndHref(row.title);
    RowLine(When(row.time), title, href)
  }

  /** What row `i` prints: the title error, if any, then its line. */
  function RowEvents(row: RowProbe, i: nat): seq<Event> {
    (if TitleFailed(row.title) then [TitleReadError(i)] else []) + [LineOf(row)]
  }

  /** What the rows from index `i` on print. */
  function RowsEvents(rows: seq<RowProbe>, i: nat): seq<Event>
    decreases |rows| - i
  {
    if i >= |rows| then [] else RowEvents(rows[i], i) + RowsEvents(rows, i + 1)
  }

  /** What a page prints before the next-button check (testGPT2.py:39-75). */
  function PageEvents(p: Page, pageNo: nat): seq<Event> {
    [Header(pageNo)]
    + (if p.rowsVisible then [] else [RowsNotVisible])
    + (if p.rows == [] then [NoRows] else RowsEvents(p.rows, 0))
  }

  /** The text the wait after a click compares against (testGPT2.py:78-84): the first
      title's stripped text, or `""` when there is none or reading it throws. */
  function Fingerprint(p: Page): (fp: string)
    ensures p.firstTitle.Got? && p.firstTitle.value.Some? ==> fp == Strip(p.firstTitle.value.value, PyWhitespace)
    ensures !(p.firstTitle.Got? && p.firstTitle.value.Some?) ==> fp == ""
  {
    match p.firstTitle
    case Got(Some(text)) => Strip(text, PyWhitespace)
    case _ => ""
  }

  datatype Decision = Click | Stop(end: End)

  /** The next-button check (testGPT2.py:87-102). */
  function Decide(b: NextButton): (d: Decision)
    ensures d == Stop(NoNextButton) <==> b.NoButton?
    ensures d == Stop(ButtonDisabled) <==> b.Button? && b.disabled == Got(true)
    ensures d == Stop(Crashed) <==> b.Button? && b.disabled.Threw? && b.cls.Threw?
    ensures d != Stop(PagesExhausted)
  {
    match b
    case NoButton => Stop(NoNextButton)
    case Button(Got(disabled), _) => if disabled then Stop(ButtonDisabled) else Click
    case Button(Threw, Threw) => Stop(Crashed)
    case Button(Threw, Got(cls)) =>
      if HasSubstring(ClassText(cls), "disabled") then Stop(ButtonClassDisabled) else Click
  }

  /** The walk stops at a page exactly when there is no next button, when
      `is_disabled()` says so, or, when that probe throws, when the class attribute
      (missing reads as `""`) contains `disabled`; a class read that throws as well is not
      guarded and ends the walk with the exception. */
  lemma DecideStopsWhen(b: NextButton)
    ensures Decide(b).Stop? <==>
      || b.NoButton?
      || b.disabled == Got(true)
      || (b.disabled.Threw? && (b.cls.Threw? || Contains(ClassText(b.cls.value), "disabled")))
    ensures Decide(b) == Stop(ButtonClassDisabled) ==> b.Button? && b.disabled.Threw? && b.cls.Got?
  {
    if b.Button? && b.cls.Got? {
      HasSubstringIffContains(ClassText(b.cls.value), "disabled");
    }
  }

  /** What the wait after a click prints (testGPT2.py:108-126). */
  function TransitionEvents(t: Transition): seq<Event> {
    if t == Fallback(false) then [RowsWaitTimedOut] else []
  }

  datatype Walked = Walked(trace: seq<Event>, end: End)

  /** What one iteration prints: the page, then the end of the walk or the click and what
      the wait after it prints. */
  function StepEvents(p: Page, pageNo: nat): seq<Event> {
    var d := Decide(p.button);
    PageEvents(p, pageNo)
    + (if d.Stop? then [Ended(d.end)] else [Clicked(Fingerprint(p))] + TransitionEvents(p.transition))
  }

  /** The walk from page number `pageNo` over the pages still to come. */
  function Walk(pages: seq<Page>, pageNo: nat): Walked
    decreases |pages|
  {
    if pages == [] then Walked([], PagesExhausted)
    else
      var d := Decide(pages[0].button);
      if d.Stop? then Walked(StepEvents(pages[0], pageNo), d.end)
      else
        var rest := Walk(pages[1..], pageNo + 1);
        Walked(StepEvents(pages[0], pageNo) + rest.trace, rest.end)
  }

  /** One row of testGPT2.py:53-75: the guarded title read, then the guarded time read. */
  method PrintRow(row: RowProbe, i: nat) returns (events: seq<Event>)
    ensures events == RowEvents(row, i)
  {
    events := [];
    if TitleFailed(row.title) {
      events := [TitleReadError(i)];
    }
    events := events + [LineOf(row)];
  }

  lemma AppendAssoc(a: seq<Event>, b: seq<Event>, c: seq<Event>)
    ensures a + (b + c) == (a + b) + c
  {
  }

  /** The row loop of testGPT2.py:52-75. */
  method PrintRows(rows: seq<RowProbe>) returns (events: seq<Event>)
    ensures events == RowsEvents(rows, 0)
  {
    events := [];
    for i := 0 to |rows|
      invariant RowsEvents(rows, 0) == events + RowsEvents(rows, i)
    {
      var here := PrintRow(rows[i], i);
      AppendAssoc(events, here, RowsEvents(rows, i + 1));
      events := events + here;
    }
  }

  /** One page up to the next-button check (testGPT2.py:39-75). */
  method PrintPage(p: Page, pageNo: nat) returns (events: seq<Event>)
    ensures events == PageEvents(p, pageNo)
  {
    events := [Header(pageNo)];
    if !p.rowsVisible {
      events := events + [RowsNotVisible];
    }
    if |p.rows| == 0 {
      events := events + [NoRows];
    } else {
      var lines := PrintRows(p.rows);
      events := events + lines;
    }
  }

  /** One iteration of testGPT2.py:38-128: the page, the next-button check and, when it
      clicks, the wait for the next page. */
  method VisitPage(p: Page, pageNo: nat) returns (events: seq<Event>, d: Decision)
    ensures d == Decide(p.button)
    ensures events == StepEvents(p, pageNo)
  {
    events := PrintPage(p, pageNo);
    d := Decide(p.button);
    if d.Stop? {
      events := events + [Ended(d.end)];
      return;
    }
    var clicked := [Clicked(Fingerprint(p))];
    if p.transition == Fallback(false) {
      clicked := clicked + [RowsWaitTimedOut];
    }
    events := events + clicked;
  }

  /** The loop of testGPT2.py:37-128, from page 1. */
  method PaginationWalk(pages: seq<Page>) returns (trace: seq<Event>, end: End)
    ensures trace == Walk(pages, 1).trace && end == Walk(pages, 1).end
  {
    trace := [];
    var pageNo := 1;
    var k := 0;
    assert pages[0..] == pages;
    while k < |pages|
      invariant 0 <= k <= |pages| && pageNo == k + 1
      invariant Walk(pages, 1).trace == trace + Walk(pages[k..], pageNo).trace
      invariant Walk(pages, 1).end == Walk(pages[k..], pageNo).end
      decreases |pages| - k
    {
      assert pages[k..][0] == pages[k] && pages[k..][1..] == pages[k + 1..];
      var events, d := VisitPage(pages[k], pageNo);
      if d.Stop? {
        trace := trace + events;
        end := d.end;
        return;
      }
      ghost var rest := Walk(pages[k + 1..], pageNo + 1).trace;
      assert trace + (events + rest) == (trace + events) + rest;
      trace := trace + events;
      pageNo := pageNo + 1;
      k := k + 1;
    }
    assert pages[k..] == [];
    end := PagesExhausted;
  }

  /** The index of the first page whose button check stops the walk, or the number of
      pages when none does. */
  function StopIndex(pages: seq<Page>): (k: nat)
    ensures k <= |pages|
    ensures forall i :: 0 <= i < k ==> Decide(pages[i].button) == Click
    ensures k < |pages| ==> Decide(pages[k].button).Stop?
    decreases |pages|
  {
    if pages == [] || Decide(pages[0].button).Stop? then 0 else 1 + StopIndex(pages[1..])
  }

  /** The page numbers printed, in order. */
  function Headers(trace: seq<Event>): seq<nat>
  {
    if trace == [] then []
    else (if trace[0].Header? then [trace[0].pageNo] else []) + Headers(trace[1..])
  }

  /** The fingerprints of the clicks, in order. */
  function Clicks(trace: seq<Event>): seq<string>
  {
    if trace == [] then []
    else (if trace[0].Clicked? then [trace[0].fingerprint] else []) + Clicks(trace[1..])
  }

  /** The row lines, in order. */
  function Lines(trace: seq<Event>): seq<Event>
  {
    if trace == [] then []
    else (if trace[0].RowLine? then [trace[0]] else []) + Lines(trace[1..])
  }

  lemma {:induction false} HeadersAppend(a: seq<Event>, b: seq<Event>)
    ensures Headers(a + b) == Headers(a) + Headers(b)
  {
    if a == [] {
      assert a + b == b;
    } else {
      assert (a + b)[0] == a[0] && (a + b)[1..] == a[1..] + b;
      HeadersAppend(a[1..], b);
    }
  }

  lemma {:induction false} ClicksAppend(a: seq<Event>, b: seq<Event>)
    ensures Clicks(a + b) == Clicks(a) + Clicks(b)
  {
    if a == [] {
      assert a + b == b;
    } else {
      assert (a + b)[0] == a[0] && (a + b)[1..] == a[1..] + b;
      ClicksAppend(a[1..], b);
    }
  }

  lemma {:induction false} LinesAppend(a: seq<Event>, b: seq<Event>)
    ensures Lines(a + b) == Lines(a) + Lines(b)
  {
    if a == [] {
      assert a + b == b;
    } else {
      assert (a + b)[0] == a[0] && (a + b)[1..] == a[1..] + b;
      LinesAppend(a[1..], b);
    }
  }

  lemma SelectionsAppend(a: seq<Event>, b: seq<Event>)
    ensures Headers(a + b) == Headers(a) + Headers(b)
    ensures Clicks(a + b) == Clicks(a) + Clicks(b)
    ensures Lines(a + b) == Lines(a) + Lines(b)
  {
    HeadersAppend(a, b);
    ClicksAppend(a, b);
    LinesAppend(a, b);
  }

  /** What one row prints holds no header or click, and exactly its line. */
  lemma RowHasOneLine(row: RowProbe, i: nat)
    ensures Headers(RowEvents(row, i)) == [] && Clicks(RowEvents(row, i)) == []
    ensures Lines(RowEvents(row, i)) == [LineOf(row)]
  {
    var line := [LineOf(row)];
    assert Lines(line) == line && Headers(line) == [] && Clicks(line) == [] by {
      assert line[1..] == [];
    }
    if TitleFailed(row.title) {
      var err := [TitleReadError(i)];
      assert Lines(err) == [] && Headers(err) == [] && Clicks(err) == [] by {
        assert err[1..] == [];
      }
      SelectionsAppend(err, line);
    } else {
      assert RowEvents(row, i) == line;
    }
  }

  /** The rows from index `i` on print no header or click. */
  lemma {:induction false} RowsHaveNoHeadersOrClicks(rows: seq<RowProbe>, i: nat)
    ensures Headers(RowsEvents(rows, i)) == [] && Clicks(RowsEvents(rows, i)) == []
    decreases |rows| - i
  {
    if i < |rows| {
      RowHasOneLine(rows[i], i);
      RowsHaveNoHeadersOrClicks(rows, i + 1);
      HeadersAppend(RowEvents(rows[i], i), RowsEvents(rows, i + 1));
      ClicksAppend(RowEvents(rows[i], i), RowsEvents(rows, i + 1));
    }
  }

  /** The rows from index `i` on print one line per row, in row order. */
  lemma {:induction false} RowLinesInOrder(rows: seq<RowProbe>, i: nat)
    requires i <= |rows|
    ensures |Lines(RowsEvents(rows, i))| == |rows| - i
    ensures forall k :: 0 <= k < |rows| - i ==> Lines(RowsEvents(rows, i))[k] == LineOf(rows[i + k])
    decreases |rows| - i
  {
    if i < |rows| {
      var tail := RowsEvents(rows, i + 1);
      RowHasOneLine(rows[i], i);
      RowLinesInOrder(rows, i + 1);
      LinesAppend(RowEvents(rows[i], i), tail);
      var lines, rest := Lines(RowsEvents(rows, i)), Lines(tail);
      assert lines == [LineOf(rows[i])] + rest;
      forall k | 0 <= k < |rows| - i ensures lines[k] == LineOf(rows[i + k]) {
        if k > 0 {
          assert lines[k] == rest[k - 1];
        }
      }
    }
  }

  /** Every row of a page gets exactly one line, in row order, whatever its reads throw:
      a failing row never hides the rows after it. */
  lemma EveryRowPrinted(p: Page, pageNo: nat)
    requires p.rows != []
    ensures |Lines(PageEvents(p, pageNo))| == |p.rows|
    ensures forall i :: 0 <= i < |p.rows| ==> Lines(PageEvents(p, pageNo))[i] == LineOf(p.rows[i])
  {
    PageLinesAreRowLines(p, pageNo);
    RowLinesInOrder(p.rows, 0);
  }

  lemma PageLinesAreRowLines(p: Page, pageNo: nat)
    requires p.rows != []
    ensures Lines(PageEvents(p, pageNo)) == Lines(RowsEvents(p.rows, 0))
  {
    var head: seq<Event> := [Header(pageNo)] + if p.rowsVisible then [] else [RowsNotVisible];
    var body := RowsEvents(p.rows, 0);
    assert PageEvents(p, pageNo) == head + body;
    if p.rowsVisible {
      assert head[1..] == [];
    } else {
      assert head[1..][1..] == [];
    }
    LinesAppend(head, body);
  }

  lemma PageHasOneHeader(p: Page, pageNo: nat)
    ensures Headers(PageEvents(p, pageNo)) == [pageNo] && Clicks(PageEvents(p, pageNo)) == []
  {
    var notice: seq<Event> := if p.rowsVisible then [] else [RowsNotVisible];
    var body: seq<Event> := if p.rows == [] then [NoRows] else RowsEvents(p.rows, 0);
    assert PageEvents(p, pageNo) == [Header(pageNo)] + notice + body;
    assert Headers([Header(pageNo)]) == [pageNo] && Clicks([Header(pageNo)]) == [] by {
      assert [Header(pageNo)][1..] == [];
    }
    assert Headers(notice) == [] && Clicks(notice) == [] by {
      if !p.rowsVisible {
        assert notice[1..] == [];
      }
    }
    assert Headers(body) == [] && Clicks(body) == [] by {
      if p.rows == [] {
        assert body[1..] == [];
      } else {
        RowsHaveNoHeadersOrClicks(p.rows, 0);
      }
    }
    SelectionsAppend([Header(pageNo)], notice);
    SelectionsAppend([Header(pageNo)] + notice, body);
  }

  /** One iteration prints its own page number as its only header, and one click, with
      the page's fingerprint, exactly when the button check does not stop the walk. */
  lemma StepSelections(p: Page, pageNo: nat)
    ensures Headers(StepEvents(p, pageNo)) == [pageNo]
    ensures Clicks(StepEvents(p, pageNo)) == if Decide(p.button).Stop? then [] else [Fingerprint(p)]
  {
    var d := Decide(p.button);
    var tail := if d.Stop? then [Ended(d.end)] else [Clicked(Fingerprint(p))] + TransitionEvents(p.transition);
    PageHasOneHeader(p, pageNo);
    SelectionsAppend(PageEvents(p, pageNo), tail);
    if d.Click? {
      var click := [Clicked(Fingerprint(p))];
      assert Clicks(click) == [Fingerprint(p)] && Headers(click) == [] by {
        assert click[1..] == [];
      }
      SelectionsAppend(click, TransitionEvents(p.transition));
    } else {
      assert tail[1..] == [];
    }
  }

  /** The walk ends at the first page whose button check stops it, for the reason that
      check gives; when no page stops it, it runs out of pages. Row contents and wait
      outcomes play no part in when it ends. */
  lemma {:induction false} WalkEndsAtFirstStop(pages: seq<Page>, pageNo: nat)
    ensures Walk(pages, pageNo).end
      == if StopIndex(pages) < |pages| then Decide(pages[StopIndex(pages)].button).end else PagesExhausted
    decreases |pages|
  {
    if pages != [] && Decide(pages[0].button).Click? {
      WalkEndsAtFirstStop(pages[1..], pageNo + 1);
    }
  }

  /** The walk clicks once on each page before the one that stops it, with that page's
      fingerprint, and on no other. */
  lemma {:induction false} WalkClicksBeforeStop(pages: seq<Page>, pageNo: nat)
    ensures |Clicks(Walk(pages, pageNo).trace)| == StopIndex(pages)
    ensures forall i :: 0 <= i < StopIndex(pages) ==> Clicks(Walk(pages, pageNo).trace)[i] == Fingerprint(pages[i])
    decreases |pages|
  {
    if pages != [] {
      WalkSelectionsStep(pages, pageNo);
      if Decide(pages[0].button).Click? {
        WalkClicksBeforeStop(pages[1..], pageNo + 1);
        var clicks, rest := Clicks(Walk(pages, pageNo).trace), Clicks(Walk(pages[1..], pageNo + 1).trace);
        assert StopIndex(pages) == StopIndex(pages[1..]) + 1;
        forall i | 0 <= i < StopIndex(pages) ensures clicks[i] == Fingerprint(pages[i]) {
          if i > 0 {
            assert clicks[i] == rest[i - 1] && pages[i] == pages[1..][i - 1];
          }
        }
      } else {
        assert StopIndex(pages) == 0;
      }
    }
  }

  /** What the first iteration adds to the headers and clicks of a walk. */
  lemma WalkSelectionsStep(pages: seq<Page>, pageNo: nat)
    requires pages != []
    ensures Decide(pages[0].button).Stop? ==>
      Headers(Walk(pages, pageNo).trace) == [pageNo] && Clicks(Walk(pages, pageNo).trace) == []
    ensures Decide(pages[0].button).Click? ==>
      && Headers(Walk(pages, pageNo).trace) == [pageNo] + Headers(Walk(pages[1..], pageNo + 1).trace)
      && Clicks(Walk(pages, pageNo).trace) == [Fingerprint(pages[0])] + Clicks(Walk(pages[1..], pageNo + 1).trace)
  {
    StepSelections(pages[0], pageNo);
    if Decide(pages[0].button).Click? {
      SelectionsAppend(StepEvents(pages[0], pageNo), Walk(pages[1..], pageNo + 1).trace);
    }
  }

  /** The pages the walk visits are numbered consecutively from `pageNo`: one header for
      each page up to and including the one that stops it. */
  lemma {:induction false} WalkNumbersPages(pages: seq<Page>, pageNo: nat)
    ensures var k := StopIndex(pages);
      |Headers(Walk(pages, pageNo).trace)| == if k < |pages| then k + 1 else k
    ensures forall i :: 0 <= i < |Headers(Walk(pages, pageNo).trace)| ==> Headers(Walk(pages, pageNo).trace)[i] == pageNo + i
    decreases |pages|
  {
    if pages != [] {
      WalkSelectionsStep(pages, pageNo);
      if Decide(pages[0].button).Click? {
        WalkNumbersPages(pages[1..], pageNo + 1);
        var headers, rest := Headers(Walk(pages, pageNo).trace), Headers(Walk(pages[1..], pageNo + 1).trace);
        assert StopIndex(pages) == StopIndex(pages[1..]) + 1;
        forall i | 0 <= i < |headers| ensures headers[i] == pageNo + i {
          if i > 0 {
            assert headers[i] == rest[i - 1];
          }
        }
      } else {
        assert StopIndex(pages) == 0;
      }
    }
  }

  /** A row whose `href` read throws after its link text was read keeps the title and
      prints an error line; its time is read regardless, whatever that read gives. */
  lemma TitleKeptWhenHrefThrows(text: string, time: TimeProbe, i: nat)
    ensures var row := RowProbe(Link(Got(text), Threw), time);
      RowEvents(row, i) == [TitleReadError(i), RowLine(When(time), Strip(text, PyWhitespace), "")]
  {
    var row := RowProbe(Link(Got(text), Threw), time);
    assert TitleFailed(row.title);
    assert TitleAndHref(row.title) == (Strip(text, PyWhitespace), "");
  }

  /** What a page shows plays no part in whether the walk goes on: a page whose button
      check says to go on (with no rows, rows that never became visible, or rows whose
      reads throw) prints its events, is clicked with its fingerprint, and hands over
      to the next page. */
  lemma ClickingPageHandsOver(p: Page, rest: seq<Page>, pageNo: nat)
    requires Decide(p.button) == Click
    ensures Walk([p] + rest, pageNo).trace[..|PageEvents(p, pageNo)| + 1]
      == PageEvents(p, pageNo) + [Clicked(Fingerprint(p))]
    ensures Walk([p] + rest, pageNo).trace
      == StepEvents(p, pageNo) + Walk(rest, pageNo + 1).trace
    ensures Walk([p] + rest, pageNo).end == Walk(rest, pageNo + 1).end
  {
    var pages := [p] + rest;
    assert pages[0] == p && pages[1..] == rest;
    var shown, click := PageEvents(p, pageNo), [Clicked(Fingerprint(p))];
    var step := StepEvents(p, pageNo);
    assert step == shown + (click + TransitionEvents(p.transition));
    var trace := Walk(pages, pageNo).trace;
    assert trace == step + Walk(rest, pageNo + 1).trace;
    assert trace[..|shown| + 1] == step[..|shown| + 1];
    assert step[..|shown| + 1] == shown + click;
  }
}
