/** The edit session of prototype/dashboard-builder.js: a draft layout, its saved baseline and a
    bounded undo history.  `Step` specifies each handler; the class keeps the source's variables. */
module Builder {
  import opened Wrappers
  import opened Grid

  const MAX_HISTORY := 30
  const MAX_WIDGETS := 24
  const MAX_LEGACY := 6

  datatype Layout = Layout(name: string, period: int, theme: string, widgets: seq<Widget>)

  /** The portal's checks on texts and on widget settings: they depend on its catalogue and its list of
      sensitive words. */
  datatype Portal = Portal(safeTitle: string -> bool, configOk: string -> bool)

  /** What the portal demands of a layout besides its texts and widget settings. */
  ghost predicate Valid(l: Layout) {
    && l.period in {60, 1440, 10080} && l.theme in {"light", "dark"}
    && |l.widgets| <= MAX_WIDGETS && UniqueIds(l.widgets) && OverlapFree(l.widgets)
    && forall i :: 0 <= i < |l.widgets| ==> Fits(l.widgets[i])
  }

  predicate Configs(p: Portal, ws: seq<Widget>) {
    forall i :: 0 <= i < |ws| ==> p.configOk(ws[i].config)
  }

  /** valid_layout: the portal stores exactly such a layout. */
  ghost predicate Storable(p: Portal, l: Layout) {
    Valid(l) && p.safeTitle(l.name) && Configs(p, l.widgets)
  }

  datatype Edit =
    | Add(id: string, config: string)
    | Remove(id: string)
    | Configure(id: string, w: int, h: int, config: string)
    | Move(id: string, destination: Destination)
    | Resize(id: string, change: Change)
    | Reset(source: Layout, name: string, theme: string)
    | Period(period: int)
    | Rename(name: string)

  /** What the editor's controls can submit: ids come from a UUID generator, sizes and periods from option
      lists, themes from the switch, new widgets from the portal's catalogue; a reset takes a template or the
      legacy layout (see LegacyValid); adding is disabled on a full board.  Names and settings are typed in. */
  ghost predicate Offered(p: Portal, l: Layout, e: Edit) {
    match e
    case Add(id, config) => |l.widgets| < MAX_WIDGETS && Find(l.widgets, id).None? && p.configOk(config)
    case Configure(id, w, h, _) => w in {3, 6, 12} && 2 <= h <= 8 && Find(l.widgets, id).Some?
    case Reset(source, _, theme) => Valid(source) && Configs(p, source.widgets) && theme in {"light", "dark"}
    case Period(period) => period in {60, 1440, 10080}
    case _ => true
  }

  /** The typed-in text of the edit passes the portal's checks. */
  predicate Acceptable(p: Portal, e: Edit) {
    match e
    case Configure(_, _, _, config) => p.configOk(config)
    case Reset(_, name, _) => p.safeTitle(name)
    case Rename(name) => p.safeTitle(name)
    case _ => true
  }

  function Without(ws: seq<Widget>, id: string): (r: seq<Widget>)
    ensures forall i :: 0 <= i < |r| ==> r[i] in ws && r[i].id != id
    ensures |r| <= |ws|
  {
    if ws == [] then []
    else if ws[|ws| - 1].id != id then Without(ws[..|ws| - 1], id) + [ws[|ws| - 1]]
    else Without(ws[..|ws| - 1], id)
  }

  function Configured(ws: seq<Widget>, e: Edit): seq<Widget>
    requires e.Configure?
  {
    var k := Find(ws, e.id);
    if k.None? then ws else ws[k.value := ws[k.value].(w := e.w, h := e.h, config := e.config)]
  }

  /** Whether a candidate differs in place or size from the current layout. */
  predicate Changed(ws: seq<Widget>, candidate: seq<Widget>) {
    exists i :: 0 <= i < |candidate| &&
                var k := Find(ws, candidate[i].id);
                k.Some? && var was, now := ws[k.value], candidate[i];
                        was.x != now.x || was.y != now.y || was.w != now.w || was.h != now.h
  }

  function Accepted(l: Layout, candidate: Option<seq<Widget>>): Option<Layout> {
    if candidate.None? || !Changed(l.widgets, candidate.value) then None
    else Some(l.(widgets := candidate.value))
  }

  /** The layout after an edit, or None when the edit leaves the draft (and the history) alone. */
  function Edited(l: Layout, e: Edit): Option<Layout> {
    match e
    case Add(id, config) => Some(l.(widgets := Compacted(l.widgets + [Widget(id, 0, 0, 6, 3, config)])))
    case Remove(id) => Some(l.(widgets := Compacted(Without(l.widgets, id))))
    case Configure(_, _, _, _) => Some(l.(widgets := Compacted(Configured(l.widgets, e))))
    case Move(id, d) => Accepted(l, Relocated(l.widgets, id, d))
    case Resize(id, c) => Accepted(l, Place(l.widgets, id, c))
    case Reset(source, name, theme) => Some(source.(name := name, theme := theme))
    case Period(p) => Some(l.(period := p))
    case Rename(name) => Some(l.(name := name))
  }

  datatype Session = Session(layout: Layout, baseline: Layout, history: seq<Layout>, editing: bool, busy: bool)

  datatype Event =
    | Do(edit: Edit)
    | Undo
    | Begin
    | Cancel
    | SwitchTo(saved: Layout)
    | Stored(saved: Layout)
    | Lock(value: bool)
    | Theme(theme: string)   // the theme switch, also read when saving

  function Remembered(history: seq<Layout>, l: Layout): (h: seq<Layout>)
    ensures |history| <= MAX_HISTORY ==> |h| <= MAX_HISTORY
  {
    var h := history + [l];
    if |h| > MAX_HISTORY then h[1..] else h
  }

  function Step(s: Session, ev: Event): Session {
    match ev
    case Do(e) =>
      var next := Edited(s.layout, e);
      if s.busy || !s.editing || next.None? then s
      else s.(layout := next.value, history := Remembered(s.history, s.layout))
    case Undo =>
      if s.history == [] || s.busy then s
      else s.(layout := s.history[|s.history| - 1], history := s.history[..|s.history| - 1])
    case Begin => if s.busy then s else s.(editing := true, baseline := s.layout, history := [])
    case Cancel => if s.busy then s else s.(layout := s.baseline, editing := false, history := [])
    case SwitchTo(l) => if s.busy then s else Session(l, l, [], false, false)
    case Stored(l) => Session(l, l, [], false, s.busy)
    case Lock(v) => s.(busy := v)
    case Theme(t) => s.(layout := s.layout.(theme := t))
  }

  lemma StepOfMove(s: Session, id: string, d: Destination)
    ensures var next := Accepted(s.layout, Relocated(s.layout.widgets, id, d));
            Step(s, Do(Move(id, d))) == if s.busy || !s.editing || next.None? then s
            else s.(layout := next.value, history := Remembered(s.history, s.layout))
  {
  }

  class Editor {
    var layout: Layout
    var baseline: Layout
    var history: seq<Layout>
    var editing: bool
    var busy: bool

    ghost function View(): Session
      reads this
    {
      Session(layout, baseline, history, editing, busy)
    }

    constructor (saved: Layout)
      ensures View() == Session(saved, saved, [], false, false)
    {
      layout, baseline, history, editing, busy := saved, saved, [], false, false;
    }

    method Remember()
      modifies this`history
      ensures history == Remembered(old(history), layout)
    {
      history := history + [layout];
      if |history| > MAX_HISTORY { history := history[1..]; }
    }

    /** An edit made directly, without dragging: remember, change, and reflow when asked to. */
    method Update(e: Edit)
      requires !e.Move? && !e.Resize?
      modifies this
      ensures View() == Step(old(View()), Do(e))
    {
      if busy || !editing { return; }
      Remember();
      match e {
        case Add(id, config) => Reflow(layout.widgets + [Widget(id, 0, 0, 6, 3, config)]);
        case Remove(id) => Reflow(Without(layout.widgets, id));
        case Configure(_, _, _, _) => Reflow(Configured(layout.widgets, e));
        case Reset(source, name, theme) => layout := source.(name := name, theme := theme);
        case Period(p) => layout := layout.(period := p);
        case Rename(name) => layout := layout.(name := name);
      }
    }

    method Reflow(widgets: seq<Widget>)
      modifies this`layout
      ensures layout == old(layout).(widgets := Compacted(widgets))
    {
      var a := new Widget[|widgets|](i requires 0 <= i < |widgets| => widgets[i]);
      assert a[..] == widgets;
      Compact(a);
      layout := layout.(widgets := a[..]);
    }

    /** A drop or a resize computed a candidate: keep it only when it changes something. */
    method FinishMove(candidate: Option<seq<Widget>>) returns (ok: bool)
      modifies this
      ensures ok == candidate.Some?
      ensures var next := Accepted(old(layout), candidate);
              View() == if old(busy) || next.None? then old(View())
              else old(View()).(layout := next.value, history := Remembered(old(history), old(layout)))
    {
      if candidate.None? { return false; }
      if Changed(layout.widgets, candidate.value) && !busy {
        Remember();
        layout := layout.(widgets := candidate.value);
      }
      return true;
    }

    method Drop(id: string, d: Destination)
      modifies this
      ensures View() == Step(old(View()), Do(Move(id, d)))
    {
      StepOfMove(View(), id, d);
      if editing {
        var candidate := Relocate(layout.widgets, id, d);
        var _ := FinishMove(candidate);
      }
    }

    method UndoLast()
      modifies this
      ensures View() == Step(old(View()), Undo)
    {
      if history == [] || busy { return; }
      layout, history := history[|history| - 1], history[..|history| - 1];
    }

    method BeginEditing()
      modifies this
      ensures View() == Step(old(View()), Begin)
    {
      if busy { return; }
      editing, baseline, history := true, layout, [];
    }

    method CancelEditing()
      modifies this
      ensures View() == Step(old(View()), Cancel)
    {
      if busy { return; }
      layout, editing, history := baseline, false, [];
    }

    /** Not remembered: undoing goes back to the theme of the layout it brings back. */
    method OnTheme(theme: string)
      modifies this
      ensures View() == Step(old(View()), Theme(theme))
    {
      layout := layout.(theme := theme);
    }
  }

  // ----- Every reachable draft can be stored -----

  ghost predicate Inv(s: Session) {
    && Valid(s.layout) && Valid(s.baseline) && |s.history| <= MAX_HISTORY
    && forall i :: 0 <= i < |s.history| ==> Valid(s.history[i])
  }

  /** Events that can happen: offered edits, the two themes, and layouts that the portal serves; the legacy one
      may bear a name that could not be stored today. */
  ghost predicate Possible(p: Portal, s: Session, ev: Event) {
    match ev
    case Do(e) => Offered(p, s.layout, e)
    case SwitchTo(l) => Valid(l)
    case Stored(l) => Storable(p, l)
    case Theme(t) => t in {"light", "dark"}
    case _ => true
  }

  function Run(s: Session, events: seq<Event>): Session
    decreases |events|
  {
    if events == [] then s else Run(Step(s, events[0]), events[1..])
  }

  ghost predicate AllPossible(p: Portal, s: Session, events: seq<Event>)
    decreases |events|
  {
    events == [] || (Possible(p, s, events[0]) && AllPossible(p, Step(s, events[0]), events[1..]))
  }

  lemma CompactedValid(l: Layout, ws: seq<Widget>)
    requires Valid(l) && |ws| <= MAX_WIDGETS && UniqueIds(ws)
    requires forall i :: 0 <= i < |ws| ==> ws[i].w in {3, 6, 12} && 2 <= ws[i].h <= 8
    ensures Valid(l.(widgets := Compacted(ws)))
  {
    CompactSpec(ws);
    CompactDepth(ws, 8);
    var r, s := Compacted(ws), ShelfAfter(ws);
    forall i | 0 <= i < |r| ensures Fits(r[i]) {
      assert SameShape(r[i], ws[i]) && AboveShelf(r[i], s);
    }
    forall i, j | 0 <= i < j < |r| ensures r[i].id != r[j].id {
      assert SameShape(r[i], ws[i]) && SameShape(r[j], ws[j]);
    }
  }

  /** The legacy layout: at most as many widgets as there are kinds, of half or full width, packed by the portal in
      the same way.  It is never checked, but it is valid. */
  lemma LegacyValid(l: Layout, ws: seq<Widget>)
    requires l.period in {60, 1440, 10080} && l.theme in {"light", "dark"} && |ws| <= MAX_LEGACY && UniqueIds(ws)
    requires (forall i :: 0 <= i < |ws| ==> ws[i].w in {6, 12} && ws[i].h == 3) && l.widgets == Compacted(ws)
    ensures Valid(l)
  {
    CompactedValid(l.(widgets := []), ws);
  }

  lemma {:induction false} WithoutUnique(ws: seq<Widget>, id: string)
    requires UniqueIds(ws)
    ensures UniqueIds(Without(ws, id))
  {
    if ws != [] { WithoutUnique(ws[..|ws| - 1], id); }
  }

  lemma ArrangedValid(l: Layout, ws: seq<Widget>)
    requires Valid(l.(widgets := ws))
    ensures Valid(l.(widgets := Arrange(ws)))
  {
    ArrangeSpec(ws);
    ArrangeKeepsIds(ws);
  }

  lemma UniqueHasId(ws: seq<Widget>, id: string)
    requires UniqueIds(ws) && Find(ws, id).Some?
    ensures HasId(ws, id, Find(ws, id).value)
  {
  }

  lemma MoveValid(l: Layout, id: string, d: Destination)
    requires Valid(l) && Relocated(l.widgets, id, d).Some?
    ensures Valid(l.(widgets := Relocated(l.widgets, id, d).value))
  {
    var ws := l.widgets;
    UniqueHasId(ws, id);
    var m := Find(ws, id).value;
    RelocateSpec(ws, id, d, m);
    MovedSpec(ws, id, d, m);
    var out := Moved(ws, id, d).value;
    forall k | 0 <= k < |out| ensures Fits(out[k]) {
      assert SameShape(out[k], ws[k]) && Fits(ws[k]);
    }
    forall i, j | 0 <= i < j < |out| ensures out[i].id != out[j].id {
      assert SameShape(out[i], ws[i]) && SameShape(out[j], ws[j]);
    }
    ArrangedValid(l, out);
  }

  lemma ResizeValid(l: Layout, id: string, c: Change)
    requires Valid(l) && Place(l.widgets, id, c).Some?
    ensures Valid(l.(widgets := Place(l.widgets, id, c).value))
  {
    var ws := l.widgets;
    UniqueHasId(ws, id);
    var m := Find(ws, id).value;
    PlaceSpec(ws, id, c, m);
    ArrangedValid(l, ws[m := Applied(ws[m], c)]);
  }

  lemma AddValid(p: Portal, l: Layout, e: Edit)
    requires Valid(l) && e.Add? && Offered(p, l, e) && Edited(l, e).Some?
    ensures Valid(Edited(l, e).value)
  {
    CompactedValid(l, l.widgets + [Widget(e.id, 0, 0, 6, 3, e.config)]);
  }

  lemma RemoveValid(l: Layout, id: string)
    requires Valid(l) && Edited(l, Remove(id)).Some?
    ensures Valid(Edited(l, Remove(id)).value)
  {
    WithoutUnique(l.widgets, id);
    CompactedValid(l, Without(l.widgets, id));
  }

  /** Every edit the controls offer keeps the layout valid, whatever text was typed in. */
  lemma EditValid(p: Portal, l: Layout, e: Edit)
    requires Valid(l) && Offered(p, l, e) && Edited(l, e).Some?
    ensures Valid(Edited(l, e).value)
  {
    match e
    case Add(_, _) => AddValid(p, l, e);
    case Remove(id) => RemoveValid(l, id);
    case Configure(_, _, _, _) => CompactedValid(l, Configured(l.widgets, e));
    case Move(id, d) => MoveValid(l, id, d);
    case Resize(id, c) => ResizeValid(l, id, c);
    case _ =>
  }

  lemma CompactedConfigs(p: Portal, ws: seq<Widget>)
    requires Sized(ws)
    ensures Configs(p, Compacted(ws)) <==> Configs(p, ws)
  {
    CompactSpec(ws);
    assert forall i :: 0 <= i < |ws| ==> Compacted(ws)[i].config == ws[i].config;
  }

  lemma ArrangedConfigs(p: Portal, ws: seq<Widget>)
    requires Configs(p, ws)
    ensures Configs(p, Arrange(ws))
  {
    ArrangeSpec(ws);
  }

  lemma MovedConfigs(p: Portal, l: Layout, id: string, d: Destination)
    requires Valid(l) && Configs(p, l.widgets) && Relocated(l.widgets, id, d).Some?
    ensures Configs(p, Relocated(l.widgets, id, d).value)
  {
    var ws := l.widgets;
    UniqueHasId(ws, id);
    RelocateSpec(ws, id, d, Find(ws, id).value);
    var out := Moved(ws, id, d).value;
    assert forall k :: 0 <= k < |ws| ==> SameShape(out[k], ws[k]);
    ArrangedConfigs(p, out);
  }

  /** A layout the portal would store, once edited, would be stored exactly when the typed-in text is accepted. */
  lemma EditStorable(p: Portal, l: Layout, e: Edit)
    requires Storable(p, l) && Offered(p, l, e) && Edited(l, e).Some?
    ensures Storable(p, Edited(l, e).value) <==> Acceptable(p, e)
  {
    EditValid(p, l, e);
    match e
    case Add(_, _) => AddedConfigs(p, l, e);
    case Remove(id) => RemovedConfigs(p, l, id);
    case Configure(_, _, _, _) => ConfiguredStorable(p, l, e);
    case Move(id, d) => MovedConfigs(p, l, id, d);
    case Resize(id, c) => ResizedConfigs(p, l, id, c);
    case _ =>
  }

  lemma AddedConfigs(p: Portal, l: Layout, e: Edit)
    requires Storable(p, l) && e.Add? && Offered(p, l, e)
    ensures Configs(p, Edited(l, e).value.widgets)
  {
    CompactedConfigs(p, l.widgets + [Widget(e.id, 0, 0, 6, 3, e.config)]);
  }

  lemma RemovedConfigs(p: Portal, l: Layout, id: string)
    requires Storable(p, l)
    ensures Configs(p, Edited(l, Remove(id)).value.widgets)
  {
    CompactedConfigs(p, Without(l.widgets, id));
  }

  lemma ResizedConfigs(p: Portal, l: Layout, id: string, c: Change)
    requires Storable(p, l) && Place(l.widgets, id, c).Some?
    ensures Configs(p, Place(l.widgets, id, c).value)
  {
    var k := Find(l.widgets, id).value;
    ArrangedConfigs(p, l.widgets[k := Applied(l.widgets[k], c)]);
  }

  lemma ConfiguredStorable(p: Portal, l: Layout, e: Edit)
    requires Storable(p, l) && e.Configure? && Offered(p, l, e)
    ensures Configs(p, Compacted(Configured(l.widgets, e))) <==> p.configOk(e.config)
  {
    var ws, k := Configured(l.widgets, e), Find(l.widgets, e.id).value;
    CompactedConfigs(p, ws);
    assert ws[k].config == e.config && forall i :: 0 <= i < |ws| && i != k ==> ws[i] == l.widgets[i];
  }

  /** The empty name can be typed in, and the portal refuses it. */
  lemma EmptyNameNotStorable(p: Portal, l: Layout)
    requires Storable(p, l) && !p.safeTitle("")
    ensures Offered(p, l, Rename("")) && Valid(Edited(l, Rename("")).value) && !Storable(p, Edited(l, Rename("")).value)
  {
    EditStorable(p, l, Rename(""));
  }

  /** Over any run of edits, moves, undos, cancels, saves and switches, the draft, the baseline and
      every undo entry stay valid and the history stays within 30 entries. */
  lemma {:induction false} RunStaysValid(p: Portal, s: Session, events: seq<Event>)
    requires Inv(s) && AllPossible(p, s, events)
    ensures Inv(Run(s, events))
    decreases |events|
  {
    if events != [] {
      match events[0] {
        case Do(e) => if Edited(s.layout, e).Some? { EditValid(p, s.layout, e); }
        case _ =>
      }
      RunStaysValid(p, Step(s, events[0]), events[1..]);
    }
  }

  ghost predicate AllStorable(p: Portal, s: Session) {
    Storable(p, s.layout) && Storable(p, s.baseline) && forall i :: 0 <= i < |s.history| ==> Storable(p, s.history[i])
  }

  /** Its text passes the portal's checks: typed-in text, or the name of the layout switched to. */
  ghost predicate AcceptableEvent(p: Portal, ev: Event) {
    (ev.Do? ==> Acceptable(p, ev.edit)) && (ev.SwitchTo? ==> Storable(p, ev.saved))
  }

  /** While every text is acceptable, the draft, the baseline and every undo entry stay storable. */
  lemma {:induction false} RunStaysStorable(p: Portal, s: Session, events: seq<Event>)
    requires AllStorable(p, s) && AllPossible(p, s, events)
    requires forall i :: 0 <= i < |events| ==> AcceptableEvent(p, events[i])
    ensures AllStorable(p, Run(s, events))
    decreases |events|
  {
    if events != [] {
      match events[0] {
        case Do(e) => if Edited(s.layout, e).Some? { EditStorable(p, s.layout, e); }
        case _ =>
      }
      RunStaysStorable(p, Step(s, events[0]), events[1..]);
    }
  }

  // ----- Undo and cancel -----

  function DoAll(edits: seq<Edit>): seq<Event> {
    seq(|edits|, i requires 0 <= i < |edits| => Do(edits[i]))
  }

  function Undos(k: nat): seq<Event> {
    seq(k, i => Undo)
  }

  /** Every edit of the list changes the draft. */
  ghost predicate AllTake(l: Layout, edits: seq<Edit>)
    decreases |edits|
  {
    edits == [] || (Edited(l, edits[0]).Some? && AllTake(Edited(l, edits[0]).value, edits[1..]))
  }

  lemma {:induction false} RunAppend(s: Session, a: seq<Event>, b: seq<Event>)
    ensures Run(s, a + b) == Run(Run(s, a), b)
    decreases |a|
  {
    if a == [] {
      assert a + b == b;
    } else {
      assert (a + b)[0] == a[0] && (a + b)[1..] == a[1..] + b;
      RunAppend(Step(s, a[0]), a[1..], b);
    }
  }

  /** The draft after the first j edits. */
  function After(s: Session, edits: seq<Edit>, j: nat): Layout
    requires j <= |edits|
  {
    Run(s, DoAll(edits[..j])).layout
  }

  /** The last entries of the history are the layouts that the edits started from, oldest first. */
  ghost predicate Remembers(s: Session, edits: seq<Edit>, history: seq<Layout>) {
    && |edits| <= |history| <= MAX_HISTORY
    && forall j {:trigger After(s, edits, j)} :: 0 <= j < |edits| ==> history[|history| - |edits| + j] == After(s, edits, j)
  }

  /** After k edits, the history ends with the k layouts they started from. */
  lemma {:induction false} EditsRemembered(s: Session, edits: seq<Edit>)
    requires s.editing && !s.busy && |edits| <= MAX_HISTORY && |s.history| <= MAX_HISTORY
    requires AllTake(s.layout, edits)
    ensures var t := Run(s, DoAll(edits));
            && t.editing && !t.busy && t.baseline == s.baseline
            && Remembers(s, edits, t.history) && t.layout == After(s, edits, |edits|)
  {
    if edits == [] {
      NoneRemembered(s);
    } else {
      var n := |edits| - 1;
      AllTakePrefix(s.layout, edits, n);
      EditsRemembered(s, edits[..n]);
      LastEdit(s, edits);
      LayoutAfter(s, edits, n);
      EditTaken(Run(s, DoAll(edits[..n])), edits[n]);
      OneMoreRemembered(s, edits, Run(s, DoAll(edits[..n])).history);
    }
  }

  lemma EditTaken(s: Session, e: Edit)
    requires s.editing && !s.busy && Edited(s.layout, e).Some?
    ensures var t := Step(s, Do(e)); t.editing && !t.busy && t.baseline == s.baseline && t.history == Remembered(s.history, s.layout)
  {
  }

  lemma NoneRemembered(s: Session)
    requires |s.history| <= MAX_HISTORY
    ensures Run(s, DoAll([])) == s && Remembers(s, [], s.history) && s.layout == After(s, [], 0)
  {
    assert DoAll([]) == [] && DoAll([][..0]) == [];
  }

  /** The last of the edits. */
  lemma LastEdit(s: Session, edits: seq<Edit>)
    requires edits != []
    ensures var n := |edits| - 1;
            && Run(s, DoAll(edits)) == Step(Run(s, DoAll(edits[..n])), Do(edits[n]))
            && Run(s, DoAll(edits)).layout == After(s, edits, |edits|)
            && Run(s, DoAll(edits[..n])).layout == After(s, edits, n) == After(s, edits[..n], n)
  {
    var n := |edits| - 1;
    assert edits[..|edits|] == edits && edits[..n][..n] == edits[..n];
    assert DoAll(edits) == DoAll(edits[..n]) + [Do(edits[n])];
    RunAppend(s, DoAll(edits[..n]), [Do(edits[n])]);
    RunOne(Run(s, DoAll(edits[..n])), Do(edits[n]));
  }

  lemma RunOne(s: Session, ev: Event)
    ensures Run(s, [ev]) == Step(s, ev)
  {
    assert [ev][1..] == [];
  }

  lemma OneMoreRemembered(s: Session, edits: seq<Edit>, history: seq<Layout>)
    requires 0 < |edits| <= MAX_HISTORY && Remembers(s, edits[..|edits| - 1], history)
    ensures Remembers(s, edits, Remembered(history, After(s, edits, |edits| - 1)))
  {
    var n := |edits| - 1;
    var next := Remembered(history, After(s, edits, n));
    forall j | 0 <= j < |edits| ensures next[|next| - |edits| + j] == After(s, edits, j) {
      if j < n {
        assert edits[..n][..j] == edits[..j];
        assert After(s, edits[..n], j) == After(s, edits, j);
        assert history[|history| - n + j] == After(s, edits[..n], j);
      }
    }
  }

  /** The layout to go back to by as many undos as there were edits. */
  lemma FirstRemembered(s: Session, edits: seq<Edit>, history: seq<Layout>)
    requires edits != [] && Remembers(s, edits, history)
    ensures history[|history| - |edits|] == s.layout
  {
    assert DoAll(edits[..0]) == [];
    assert history[|history| - |edits| + 0] == After(s, edits, 0);
  }

  lemma {:induction false} AllTakePrefix(l: Layout, edits: seq<Edit>, n: nat)
    requires AllTake(l, edits) && n <= |edits|
    ensures AllTake(l, edits[..n])
    decreases n
  {
    if n > 0 {
      assert edits[..n][1..] == edits[1..][..n - 1];
      AllTakePrefix(Edited(l, edits[0]).value, edits[1..], n - 1);
    }
  }

  lemma {:induction false} LayoutAfter(s: Session, edits: seq<Edit>, n: nat)
    requires s.editing && !s.busy && n < |edits| && AllTake(s.layout, edits)
    ensures Edited(Run(s, DoAll(edits[..n])).layout, edits[n]).Some?
    ensures var t := Run(s, DoAll(edits[..n])); t.editing && !t.busy
    decreases n
  {
    if n == 0 {
      assert DoAll(edits[..0]) == [];
    } else {
      var s1 := Step(s, Do(edits[0]));
      assert DoAll(edits[..n])[0] == Do(edits[0]);
      assert DoAll(edits[..n])[1..] == DoAll(edits[1..][..n - 1]);
      LayoutAfter(s1, edits[1..], n - 1);
    }
  }

  lemma {:induction false} UndosPop(s: Session, k: nat)
    requires !s.busy && 0 < k <= |s.history|
    ensures Run(s, Undos(k)) == s.(layout := s.history[|s.history| - k], history := s.history[..|s.history| - k])
    decreases k
  {
    var t := Step(s, Undo);
    assert Undos(k)[0] == Undo && Undos(k)[1..] == Undos(k - 1);
    if k == 1 {
      assert Undos(0) == [];
    } else {
      UndosPop(t, k - 1);
    }
  }

  /** Up to 30 edits in a row are taken back exactly by as many undos. */
  lemma UndoRestores(s: Session, edits: seq<Edit>)
    requires s.editing && !s.busy && |edits| <= MAX_HISTORY && |s.history| <= MAX_HISTORY
    requires AllTake(s.layout, edits)
    ensures Run(s, DoAll(edits) + Undos(|edits|)).layout == s.layout
  {
    if edits == [] {
      assert DoAll(edits) + Undos(0) == [];
    } else {
      EditsUndone(s, edits);
    }
  }

  lemma EditsUndone(s: Session, edits: seq<Edit>)
    requires s.editing && !s.busy && 0 < |edits| <= MAX_HISTORY && |s.history| <= MAX_HISTORY && AllTake(s.layout, edits)
    ensures Run(s, DoAll(edits) + Undos(|edits|)).layout == s.layout
  {
    EditsRemembered(s, edits);
    FirstRemembered(s, edits, Run(s, DoAll(edits)).history);
    UndosPop(Run(s, DoAll(edits)), |edits|);
    RunAppend(s, DoAll(edits), Undos(|edits|));
  }

  /** The 31st edit forgets the oldest layout: 31 undos then stop one edit short of the start. */
  lemma UndoIsBounded(s: Session, edits: seq<Edit>)
    requires s.editing && !s.busy && |edits| == MAX_HISTORY + 1 && |s.history| <= MAX_HISTORY
    requires AllTake(s.layout, edits)
    ensures Run(s, DoAll(edits) + Undos(MAX_HISTORY + 1)).layout == Edited(s.layout, edits[0]).value
  {
    var s1 := Step(s, Do(edits[0]));
    assert DoAll(edits)[0] == Do(edits[0]) && DoAll(edits)[1..] == DoAll(edits[1..]);
    assert Run(s, DoAll(edits)) == Run(s1, DoAll(edits[1..]));
    EditsRemembered(s1, edits[1..]);
    FirstRemembered(s1, edits[1..], Run(s1, DoAll(edits[1..])).history);
    var t := Run(s, DoAll(edits));
    RunAppend(s, DoAll(edits), Undos(MAX_HISTORY + 1));
    UndosPop(t, MAX_HISTORY);
    assert Undos(MAX_HISTORY + 1) == Undos(MAX_HISTORY) + [Undo];
    RunAppend(t, Undos(MAX_HISTORY), [Undo]);
  }

  predicate WithinSession(ev: Event) {
    ev.Do? || ev.Undo? || ev.Lock?
  }

  lemma {:induction false} BaselineKept(s: Session, events: seq<Event>)
    requires forall i :: 0 <= i < |events| ==> WithinSession(events[i])
    ensures Run(s, events).baseline == s.baseline
    decreases |events|
  {
    if events != [] { BaselineKept(Step(s, events[0]), events[1..]); }
  }

  /** Cancelling an edit session brings back the layout it began with, whatever was done in between. */
  lemma CancelRestores(s: Session, events: seq<Event>)
    requires !s.busy && forall i :: 0 <= i < |events| ==> WithinSession(events[i])
    requires !Run(Step(s, Begin), events).busy
    ensures Run(s, [Begin] + events + [Cancel]).layout == s.layout
  {
    var t := Step(s, Begin);
    BaselineKept(t, events);
    RunAppend(s, [Begin] + events, [Cancel]);
    RunAppend(s, [Begin], events);
  }
}
