/** The page window of the log viewer (prototype/logs.js): pages of one cursor chain, at most 20 of them in
    memory, fetched under tickets so that a superseded response is dropped. */
module LogPages {
  import opened Wrappers

  const MAX_PAGES := 20

  /** A result page; `via` is the cursor it was fetched with, None for the first page of a query. */
  datatype Page = Page(via: Option<string>, rows: string, next: Option<string>)

  datatype Request = Request(reset: bool, cursor: Option<string>)

  datatype State = State(
    pages: seq<Page>, page: int, offset: nat, generation: nat, busy: bool,
    requests: map<nat, Request>,   // in flight, by ticket
    chain: seq<Page>)              // every page appended since the last new query

  datatype Answer = ValidPage(rows: string, next: Option<string>) | InvalidPage | NoAnswer

  datatype Event =
    | Refresh(queryOk: bool)
    | NextPage
    | PreviousPage
    | Response(ticket: nat, answer: Answer)
    | PageHide

  function Started(s: State, r: Request): State {
    s.(generation := s.generation + 1, busy := true, requests := s.requests[s.generation + 1 := r])
  }

  function Appended(s: State, p: Page, reset: bool): State {
    var base := if reset then s.(pages := [], offset := 0, chain := []) else s;
    var pages := base.pages + [p];
    var full := |pages| > MAX_PAGES;
    base.(pages := if full then pages[1..] else pages,
    page := |pages| - 1 - (if full then 1 else 0),
    offset := base.offset + (if full then 1 else 0),
    chain := base.chain + [p])
  }

  function Step(s: State, ev: Event): State {
    match ev
    case Refresh(ok) =>
      if ok then Started(s, Request(true, None))
      else s.(generation := s.generation + 1, busy := false, pages := [], page := -1, offset := 0)
    case NextPage =>
      if s.busy || s.page < 0 || s.page >= |s.pages| then s
      else if s.page < |s.pages| - 1 then s.(page := s.page + 1)
      else if s.pages[s.page].next.Some? then Started(s, Request(false, s.pages[s.page].next))
      else s
    case PreviousPage => if !s.busy && s.page > 0 then s.(page := s.page - 1) else s
    case Response(t, answer) =>
      if t !in s.requests then s
      else
        var r := s.requests[t];
        var gone := s.(requests := s.requests - {t});
        if t != s.generation then gone
        else if answer.ValidPage? then Appended(gone, Page(r.cursor, answer.rows, answer.next), r.reset).(busy := false)
        else gone.(busy := false)
    case PageHide => s.(generation := s.generation + 1, pages := [], page := -1)
  }

  class Viewer {
    var pages: seq<Page>
    var page: int
    var offset: nat
    var generation: nat
    var busy: bool
    var requests: map<nat, Request>
    ghost var chain: seq<Page>

    ghost function View(): State
      reads this
    {
      State(pages, page, offset, generation, busy, requests, chain)
    }

    constructor ()
      ensures View() == State([], -1, 0, 0, false, map[], [])
    {
      pages, page, offset, generation, busy, requests, chain := [], -1, 0, 0, false, map[], [];
    }

    method Load(r: Request)
      modifies this
      ensures View() == Started(old(View()), r)
    {
      generation := generation + 1;
      busy := true;
      requests := requests[generation := r];
    }

    method OnRefresh(queryOk: bool)
      modifies this
      ensures View() == Step(old(View()), Refresh(queryOk))
    {
      if queryOk {
        Load(Request(true, None));
      } else {
        generation := generation + 1;
        busy := false;
        pages, page, offset := [], -1, 0;
      }
    }

    method OnResponse(ticket: nat, answer: Answer)
      requires ticket in requests
      modifies this
      ensures View() == Step(old(View()), Response(ticket, answer))
    {
      var r := requests[ticket];
      requests := requests - {ticket};
      if ticket != generation { return; }
      if answer.ValidPage? {
        if r.reset { pages, page, offset, chain := [], -1, 0, []; }
        var data := Page(r.cursor, answer.rows, answer.next);
        pages := pages + [data];
        chain := chain + [data];
        page := |pages| - 1;
        if |pages| > MAX_PAGES {
          pages := pages[1..];
          page := page - 1;
          offset := offset + 1;
        }
      }
      busy := false;
    }

    method OnNext()
      requires page < |pages|
      modifies this
      ensures View() == Step(old(View()), NextPage)
    {
      if busy || page < 0 { return; }
      if page < |pages| - 1 {
        page := page + 1;
      } else if pages[page].next.Some? {
        Load(Request(false, pages[page].next));
      }
    }

    method OnPrevious()
      modifies this
      ensures View() == Step(old(View()), PreviousPage)
    {
      if !busy && page > 0 { page := page - 1; }
    }

    method OnPageHide()
      modifies this
      ensures View() == Step(old(View()), PageHide)
    {
      generation := generation + 1;
      pages, page := [], -1;
    }
  }

  /** A cursor chain: the first page of a query, each next one fetched with its predecessor's cursor. */
  ghost predicate Chain(ps: seq<Page>) {
    && (ps != [] ==> ps[0].via == None)
    && forall i :: 0 < i < |ps| ==> ps[i].via == ps[i - 1].next && ps[i].via.Some?
  }

  ghost predicate Inv(s: State) {
    && |s.pages| <= MAX_PAGES && -1 <= s.page < |s.pages| && (s.page == -1 <==> s.pages == [])
    && Chain(s.chain)
    // the window is the end of the chain
    && (s.pages != [] ==> |s.chain| == s.offset + |s.pages| && s.pages == s.chain[s.offset..])
    && (forall t :: t in s.requests ==> t <= s.generation)
    // a current request that continues the chain is for the page after the last one
    && (s.generation in s.requests ==>
          var r := s.requests[s.generation];
          if r.reset then r.cursor == None
          else s.busy && s.pages != [] && r.cursor.Some? && r.cursor == s.pages[|s.pages| - 1].next)
    && (s.generation in s.requests && s.pages != [] ==> s.busy)
  }

  function Run(s: State, events: seq<Event>): State
    decreases |events|
  {
    if events == [] then s else Run(Step(s, events[0]), events[1..])
  }

  lemma WindowGrows(chain: seq<Page>, pages: seq<Page>, offset: nat, p: Page)
    requires |chain| == offset + |pages| && pages == chain[offset..]
    ensures pages + [p] == (chain + [p])[offset..] && (pages + [p])[1..] == (chain + [p])[offset + 1..]
  {
  }

  lemma AppendedInv(s: State, p: Page, reset: bool)
    requires Inv(s) && s.generation !in s.requests
    requires if reset then p.via == None
             else s.pages != [] && p.via.Some? && p.via == s.pages[|s.pages| - 1].next
    ensures Inv(Appended(s, p, reset).(busy := false))
  {
    if reset {
      AppendedFirst(s, p);
    } else {
      ChainGrows(s.chain, p);
      WindowGrows(s.chain, s.pages, s.offset, p);
      AppendedNext(s, p);
    }
  }

  lemma ChainGrows(chain: seq<Page>, p: Page)
    requires Chain(chain) && chain != [] && p.via.Some? && p.via == chain[|chain| - 1].next
    ensures Chain(chain + [p])
  {
    var more := chain + [p];
    forall i | 0 < i < |more| ensures more[i].via == more[i - 1].next && more[i].via.Some? {
      assert i < |chain| ==> more[i] == chain[i] && more[i - 1] == chain[i - 1];
    }
  }

  lemma AppendedFirst(s: State, p: Page)
    requires Inv(s) && s.generation !in s.requests && p.via == None
    ensures Inv(Appended(s, p, true).(busy := false))
  {
    assert [p][0..] == [p] && [] + [p] == [p];
  }

  lemma AppendedNext(s: State, p: Page)
    requires Inv(s) && s.generation !in s.requests && s.pages != []
    requires Chain(s.chain + [p]) && s.pages + [p] == (s.chain + [p])[s.offset..]
    requires (s.pages + [p])[1..] == (s.chain + [p])[s.offset + 1..]
    ensures Inv(Appended(s, p, false).(busy := false))
  {
  }

  lemma StepInv(s: State, ev: Event)
    requires Inv(s)
    ensures Inv(Step(s, ev))
  {
    if ev.Response? && ev.ticket in s.requests && ev.ticket == s.generation && ev.answer.ValidPage? {
      var r := s.requests[ev.ticket];
      AppendedInv(s.(requests := s.requests - {ev.ticket}), Page(r.cursor, ev.answer.rows, ev.answer.next), r.reset);
    }
  }

  /** Every run keeps the invariant. */
  lemma {:induction false} RunInv(s: State, events: seq<Event>)
    requires Inv(s)
    ensures Inv(Run(s, events))
    decreases |events|
  {
    if events != [] {
      StepInv(s, events[0]);
      RunInv(Step(s, events[0]), events[1..]);
    }
  }

  lemma InitInv()
    ensures Inv(State([], -1, 0, 0, false, map[], []))
  {
  }

  /** The number shown for a page. */
  function Label(s: State): int { s.offset + s.page + 1 }

  /** In every reachable state the held pages, at most 20, are a contiguous run of one cursor chain, where
      each page was fetched with the cursor its predecessor gave.  The number displayed is
      the shown page's position in that chain. */
  lemma EveryWindow(events: seq<Event>)
    ensures var r := Run(State([], -1, 0, 0, false, map[], []), events);
            && |r.pages| <= MAX_PAGES
            && (forall i :: 0 < i < |r.chain| ==> r.chain[i].via.Some? && r.chain[i].via == r.chain[i - 1].next)
            && (r.chain != [] ==> r.chain[0].via == None)
            && (r.pages != [] ==> |r.chain| == r.offset + |r.pages| && 0 <= r.page < |r.pages|)
            && (r.pages != [] ==> r.pages == r.chain[r.offset..] && r.chain[Label(r) - 1] == r.pages[r.page])
  {
    InitInv();
    RunInv(State([], -1, 0, 0, false, map[], []), events);
  }

  /** The events that supersede the requests before them: a new query, a failed one, leaving the page, and a fetch
      of the page after the last one held. */
  predicate Supersedes(s: State, ev: Event) {
    match ev
    case Refresh(_) => true
    case PageHide => true
    case NextPage => !s.busy && 0 <= s.page == |s.pages| - 1 && s.pages[s.page].next.Some?
    case _ => false
  }

  lemma {:induction false} OldStaysOut(s: State, t: nat, events: seq<Event>, answer: Answer)
    requires t < s.generation
    ensures t < Run(s, events).generation
    ensures var r := Run(s, events);
            Step(r, Response(t, answer)) == r.(requests := r.requests - {t})
    decreases |events|
  {
    if events != [] { OldStaysOut(Step(s, events[0]), t, events[1..], answer); }
    var r := Run(s, events);
    assert t !in r.requests ==> r.requests - {t} == r.requests;
  }

  /** Once such an event has come, the response of a request before it changes nothing that is shown, now or after
      any further events. */
  lemma SupersededStaysOut(s: State, t: nat, ev: Event, events: seq<Event>, answer: Answer)
    requires Inv(s) && t in s.requests && Supersedes(s, ev)
    ensures var r := Run(s, [ev] + events);
            Step(r, Response(t, answer)) == r.(requests := r.requests - {t})
  {
    assert ([ev] + events)[1..] == events;
    OldStaysOut(Step(s, ev), t, events, answer);
  }

  /** Going to the next page and back shows the same page under the same number. */
  lemma NextThenPrevious(s: State)
    requires Inv(s) && !s.busy && 0 <= s.page < |s.pages| - 1
    ensures Step(Step(s, NextPage), PreviousPage) == s && Label(Step(s, NextPage)) == Label(s) + 1
  {
  }
}
