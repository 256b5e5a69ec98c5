/** Keyed in-place reconciliation of prototype/live-refresh.js: `children` and `patch` edit the child
    list of a live element so that it shows a freshly built one, reusing live nodes where they match.

    A node is a value that carries its identity (`ref`), so reuse of a live node is visible as its
    ref staying in the result.  The reference pairs nodes by counting: the n-th fresh node of a slot
    meets the n-th live node of that slot.  The source's loop, with its set of used nodes and its
    moves and insertions in the child list, is proved to compute it. */
module Reconcile {
  import opened Wrappers

  type Attributes = map<string, string>

  datatype Node =
    | Element(ref: nat, name: string, attrs: Attributes, kids: seq<Node>)
    | Text(ref: nat, data: string)

  function Get(attrs: Attributes, name: string): string {
    if name in attrs then attrs[name] else ""
  }

  function FirstNonEmpty(values: seq<string>): string {
    if values == [] then "" else if values[0] != "" then values[0] else FirstNonEmpty(values[1..])
  }

  function Key(n: Node): string {
    match n
    case Text(_, _) => ""
    case Element(_, _, a, _) =>
      FirstNonEmpty([Get(a, "id"), Get(a, "data-live-key"), Get(a, "data-widget"), Get(a, "data-instance"), Get(a, "href")])
  }

  predicate SameKind(a: Node, b: Node) {
    (a.Text? && b.Text?) || (a.Element? && b.Element? && a.name == b.name)
  }

  /** The live node n may serve the fresh node next. */
  predicate Matches(n: Node, next: Node) {
    if Key(next) != "" then Key(n) == Key(next) else Key(n) == "" && SameKind(n, next)
  }

  /** What a node is paired by: its key if it has one, else its kind. */
  datatype Slot = ByKey(key: string) | ByTag(name: string) | ByText

  function SlotOf(n: Node): Slot {
    if Key(n) != "" then ByKey(Key(n)) else if n.Element? then ByTag(n.name) else ByText
  }

  function Count(ns: seq<Node>, s: Slot): nat {
    if ns == [] then 0
    else Count(ns[..|ns| - 1], s) + if SlotOf(ns[|ns| - 1]) == s then 1 else 0
  }

  /** The position of the n-th node of slot s (from 0). */
  function Occurrence(ns: seq<Node>, s: Slot, n: nat): (p: Option<nat>)
    ensures p.Some? ==> p.value < |ns| && SlotOf(ns[p.value]) == s && Count(ns[..p.value], s) == n
    ensures p.None? ==> Count(ns, s) <= n
  {
    if ns == [] then None
    else
      var last := |ns| - 1;
      var before := Occurrence(ns[..last], s, n);
      if before.Some? then
        assert ns[..last][..before.value] == ns[..before.value];
        before
      else if SlotOf(ns[last]) == s && Count(ns[..last], s) == n then Some(last)
      else None
  }

  function PatchedAttrs(live: Attributes, wanted: Attributes): Attributes {
    (map k | k in wanted && k != "open" :: wanted[k]) + (map k | k in live && k == "open" :: live[k])
  }

  // ----- Reference -----

  function Patched(live: Node, wanted: Node): Node
    decreases wanted, 1
  {
    if !SameKind(live, wanted) then wanted
    else if live.Text? then live.(data := wanted.data)
    else live.(attrs := PatchedAttrs(live.attrs, wanted.attrs), kids := Reconciled(live.kids, wanted.kids))
  }

  function Reconciled(prior: seq<Node>, wanted: seq<Node>): (r: seq<Node>)
    ensures |r| == |wanted|
    decreases wanted, 0
  {
    seq(|wanted|, i requires 0 <= i < |wanted| =>
      var p := Occurrence(prior, SlotOf(wanted[i]), Count(wanted[..i], SlotOf(wanted[i])));
      if p.Some? then Patched(prior[p.value], wanted[i]) else wanted[i])
  }

  // ----- The result shows the fresh tree -----

  ghost predicate SameAttrs(a: Attributes, b: Attributes) {
    a - {"open"} == b - {"open"}
  }

  /** Equal at every depth, identities and the `open` attribute aside. */
  ghost predicate Shows(a: Node, b: Node)
    decreases b
  {
    && SameKind(a, b)
    && (a.Text? ==> a.data == b.data)
    && (a.Element? ==> SameAttrs(a.attrs, b.attrs) && |a.kids| == |b.kids| &&
                       forall i :: 0 <= i < |b.kids| ==> Shows(a.kids[i], b.kids[i]))
  }

  ghost predicate ShowsAll(a: seq<Node>, b: seq<Node>) {
    |a| == |b| && forall i :: 0 <= i < |b| ==> Shows(a[i], b[i])
  }

  lemma {:induction false} ShowsItself(n: Node)
    ensures Shows(n, n)
    decreases n
  {
    if n.Element? {
      forall i | 0 <= i < |n.kids| ensures Shows(n.kids[i], n.kids[i]) { ShowsItself(n.kids[i]); }
    }
  }

  lemma {:induction false} PatchedShows(live: Node, wanted: Node)
    ensures Shows(Patched(live, wanted), wanted)
    decreases wanted, 1
  {
    if !SameKind(live, wanted) {
      ShowsItself(wanted);
    } else if live.Element? {
      ReconciledShows(live.kids, wanted.kids);
    }
  }

  /** Reconciling with any live list yields, position by position and at every depth, the fresh one. */
  lemma {:induction false} ReconciledShows(prior: seq<Node>, wanted: seq<Node>)
    ensures ShowsAll(Reconciled(prior, wanted), wanted)
    decreases wanted, 0
  {
    forall i | 0 <= i < |wanted| ensures Shows(Reconciled(prior, wanted)[i], wanted[i]) {
      var p := Occurrence(prior, SlotOf(wanted[i]), Count(wanted[..i], SlotOf(wanted[i])));
      if p.Some? { PatchedShows(prior[p.value], wanted[i]); } else { ShowsItself(wanted[i]); }
    }
  }

  lemma ShowsSameSlot(a: Node, b: Node)
    requires Shows(a, b)
    ensures SlotOf(a) == SlotOf(b)
  {
    if a.Element? {
      forall k | k != "open" ensures Get(a.attrs, k) == Get(b.attrs, k) {
        assert k in a.attrs <==> k in a.attrs - {"open"};
        assert k in b.attrs <==> k in b.attrs - {"open"};
      }
    }
  }

  lemma {:induction false} ShowsSameCount(a: seq<Node>, b: seq<Node>, s: Slot)
    requires ShowsAll(a, b)
    ensures Count(a, s) == Count(b, s)
  {
    if a != [] {
      ShowsSameSlot(a[|a| - 1], b[|a| - 1]);
      ShowsSameCount(a[..|a| - 1], b[..|a| - 1], s);
    }
  }

  lemma {:induction false} CountMonotone(ns: seq<Node>, s: Slot, i: nat, j: nat)
    requires i <= j <= |ns|
    ensures Count(ns[..i], s) <= Count(ns[..j], s)
    ensures i < j && SlotOf(ns[i]) == s ==> Count(ns[..i], s) < Count(ns[..j], s)
    decreases j
  {
    if i < j {
      assert ns[..j][..j - 1] == ns[..j - 1];
      CountMonotone(ns, s, i, j - 1);
    }
  }

  lemma OccurrenceOf(ns: seq<Node>, p: nat)
    requires p < |ns|
    ensures Occurrence(ns, SlotOf(ns[p]), Count(ns[..p], SlotOf(ns[p]))) == Some(p)
  {
    var s := SlotOf(ns[p]);
    var q := Occurrence(ns, s, Count(ns[..p], s));
    assert ns[..|ns|] == ns;
    CountMonotone(ns, s, p, |ns|);
    if q.value < p { CountMonotone(ns, s, q.value, p); }
    if p < q.value { CountMonotone(ns, s, p, q.value); }
  }

  /** A second run against an equal tree changes nothing, identities included. */
  lemma {:induction false} SecondRunIsIdle(live: seq<Node>, again: seq<Node>)
    requires ShowsAll(live, again)
    ensures Reconciled(live, again) == live
    decreases again, 0
  {
    forall i | 0 <= i < |again| ensures Reconciled(live, again)[i] == live[i] {
      ShowsSameSlot(live[i], again[i]);
      ShowsSameCount(live[..i], again[..i], SlotOf(again[i]));
      OccurrenceOf(live, i);
      PatchIsIdle(live[i], again[i]);
    }
  }

  lemma {:induction false} PatchIsIdle(live: Node, again: Node)
    requires Shows(live, again)
    ensures Patched(live, again) == live
    decreases again, 1
  {
    if live.Element? {
      SecondRunIsIdle(live.kids, again.kids);
      AttrsIdle(live.attrs, again.attrs);
    }
  }

  lemma AttrsIdle(a: Attributes, b: Attributes)
    requires SameAttrs(a, b)
    ensures PatchedAttrs(a, b) == a
  {
    forall k ensures k in PatchedAttrs(a, b) <==> k in a {
      assert k != "open" ==> (k in a <==> k in a - {"open"}) && (k in b <==> k in b - {"open"});
    }
    forall k | k in a ensures PatchedAttrs(a, b)[k] == a[k] {
      if k != "open" {
        assert k in a - {"open"} && (a - {"open"})[k] == a[k];
        assert k in b - {"open"} && (b - {"open"})[k] == b[k];
      }
    }
  }

  /** Refreshing twice with equal content is the same as refreshing once. */
  lemma RefreshIdempotent(prior: seq<Node>, wanted: seq<Node>, again: seq<Node>)
    requires ShowsAll(again, wanted)
    ensures Reconciled(Reconciled(prior, wanted), again) == Reconciled(prior, wanted)
  {
    ReconciledShows(prior, wanted);
    ShowsAllJoin(Reconciled(prior, wanted), wanted, again);
    SecondRunIsIdle(Reconciled(prior, wanted), again);
  }

  lemma {:induction false} ShowsJoin(a: Node, b: Node, c: Node)
    requires Shows(a, b) && Shows(c, b)
    ensures Shows(a, c)
    decreases b
  {
    if b.Element? {
      forall i | 0 <= i < |b.kids| ensures Shows(a.kids[i], c.kids[i]) {
        ShowsJoin(a.kids[i], b.kids[i], c.kids[i]);
      }
    }
  }

  lemma ShowsAllJoin(a: seq<Node>, b: seq<Node>, c: seq<Node>)
    requires ShowsAll(a, b) && ShowsAll(c, b)
    ensures ShowsAll(a, c)
  {
    forall i | 0 <= i < |c| ensures Shows(a[i], c[i]) { ShowsJoin(a[i], b[i], c[i]); }
  }

  // ----- Identity of live nodes -----

  /** The live node that serves position i, if any. */
  function Server(prior: seq<Node>, wanted: seq<Node>, i: nat): (p: Option<nat>)
    requires i < |wanted|
    ensures p.Some? ==> p.value < |prior|
  {
    Occurrence(prior, SlotOf(wanted[i]), Count(wanted[..i], SlotOf(wanted[i])))
  }

  /** No live node serves two positions. */
  lemma ServedOnce(prior: seq<Node>, wanted: seq<Node>, i: nat, j: nat)
    requires i < j < |wanted| && Server(prior, wanted, i).Some?
    ensures Server(prior, wanted, i) != Server(prior, wanted, j)
  {
    CountMonotone(wanted, SlotOf(wanted[i]), i, j);
  }

  /** A served position keeps its live node's identity when that node is of the same kind; otherwise, and when
      no live node serves it, the fresh node takes the place. */
  lemma IdentityAt(prior: seq<Node>, wanted: seq<Node>, i: nat)
    requires i < |wanted|
    ensures var p := Server(prior, wanted, i);
            Reconciled(prior, wanted)[i].ref ==
            if p.Some? && SameKind(prior[p.value], wanted[i]) then prior[p.value].ref else wanted[i].ref
  {
    ReconciledAt(prior, wanted, i);
  }

  /** A key carried by one live and one fresh sibling of the same kind keeps the live node's identity,
      wherever the two stand. */
  lemma KeyedNodeKept(prior: seq<Node>, wanted: seq<Node>, p: nat, i: nat)
    requires p < |prior| && i < |wanted| && Key(wanted[i]) != "" && Key(prior[p]) == Key(wanted[i])
    requires SameKind(prior[p], wanted[i])
    requires forall q :: 0 <= q < |prior| && q != p ==> Key(prior[q]) != Key(wanted[i])
    requires forall j :: 0 <= j < |wanted| && j != i ==> Key(wanted[j]) != Key(wanted[i])
    ensures Reconciled(prior, wanted)[i].ref == prior[p].ref
  {
    var s := SlotOf(wanted[i]);
    CountNone(wanted[..i], s);
    CountNone(prior[..p], s);
    OccurrenceOf(prior, p);
  }

  lemma {:induction false} CountNone(ns: seq<Node>, s: Slot)
    requires forall k :: 0 <= k < |ns| ==> SlotOf(ns[k]) != s
    ensures Count(ns, s) == 0
  {
    if ns != [] { CountNone(ns[..|ns| - 1], s); }
  }

  // ----- Live nodes still waiting to be served -----

  /** Live node k is not among the first ones of its slot that the done positions use up. */
  predicate Waiting(prior: seq<Node>, done: seq<Node>, k: nat)
    requires k < |prior|
  {
    Count(prior[..k], SlotOf(prior[k])) >= Count(done, SlotOf(prior[k]))
  }

  /** The positions of the live nodes still waiting once the done positions are served. */
  function WaitingSet(prior: seq<Node>, done: seq<Node>): set<nat> {
    set k: nat | k < |prior| && Waiting(prior, done, k)
  }

  /** The live nodes at the given positions from n on, in order. */
  function Left(prior: seq<Node>, waiting: set<nat>, n: nat): seq<Node>
    requires n <= |prior|
    decreases |prior| - n
  {
    if n == |prior| then []
    else (if n in waiting then [prior[n]] else []) + Left(prior, waiting, n + 1)
  }

  lemma CountSnoc(ns: seq<Node>, x: Node, s: Slot)
    ensures Count(ns + [x], s) == Count(ns, s) + if SlotOf(x) == s then 1 else 0
  {
    assert (ns + [x])[..|ns|] == ns;
  }

  /** Serving one more position takes exactly its server off the waiting list. */
  lemma WaitingStep(prior: seq<Node>, done: seq<Node>, x: Node, k: nat)
    requires k < |prior|
    ensures var q := Occurrence(prior, SlotOf(x), Count(done, SlotOf(x)));
            && (Waiting(prior, done + [x], k) <==> Waiting(prior, done, k) && q != Some(k))
            && (q == Some(k) ==> Waiting(prior, done, k))
  {
    var s, rank := SlotOf(prior[k]), Count(prior[..k], SlotOf(prior[k]));
    CountSnoc(done, x, s);
    RankIdentifies(prior, SlotOf(x), Count(done, SlotOf(x)), k);
  }

  lemma RankIdentifies(prior: seq<Node>, s: Slot, n: nat, k: nat)
    requires k < |prior|
    ensures Occurrence(prior, s, n) == Some(k) <==> SlotOf(prior[k]) == s && Count(prior[..k], s) == n
  {
    OccurrenceOf(prior, k);
  }

  lemma WaitingSetStep(prior: seq<Node>, done: seq<Node>, x: Node)
    ensures var q, w := Occurrence(prior, SlotOf(x), Count(done, SlotOf(x))), WaitingSet(prior, done);
            if q.Some? then q.value in w && WaitingSet(prior, done + [x]) == w - {q.value}
            else WaitingSet(prior, done + [x]) == w
  {
    forall k: nat | k < |prior|
      ensures var q := Occurrence(prior, SlotOf(x), Count(done, SlotOf(x)));
              && (Waiting(prior, done + [x], k) <==> Waiting(prior, done, k) && q != Some(k))
              && (q == Some(k) ==> Waiting(prior, done, k))
    {
      WaitingStep(prior, done, x, k);
    }
  }

  lemma {:induction false} LeftUnfold(prior: seq<Node>, waiting: set<nat>, n: nat)
    requires n < |prior|
    ensures Left(prior, waiting, n) == (if n in waiting then [prior[n]] else []) + Left(prior, waiting, n + 1)
  {
  }

  lemma {:induction false} LeftSame(prior: seq<Node>, waiting: set<nat>, q: nat, n: nat)
    requires q < n <= |prior|
    ensures Left(prior, waiting - {q}, n) == Left(prior, waiting, n)
    decreases |prior| - n
  {
    if n < |prior| { LeftSame(prior, waiting, q, n + 1); }
  }

  /** Taking position q off the waiting set takes its node out of the waiting list. */
  lemma {:induction false} LeftDrop(prior: seq<Node>, waiting: set<nat>, q: nat, n: nat)
    returns (a: seq<Node>, b: seq<Node>)
    requires n <= q < |prior| && q in waiting
    ensures Left(prior, waiting, n) == a + ([prior[q]] + b)
    ensures Left(prior, waiting - {q}, n) == a + b
    decreases |prior| - n
  {
    LeftUnfold(prior, waiting, n);
    LeftUnfold(prior, waiting - {q}, n);
    if n == q {
      LeftSame(prior, waiting, q, n + 1);
      a, b := [], Left(prior, waiting, n + 1);
    } else {
      var head := if n in waiting then [prior[n]] else [];
      var c, d := LeftDrop(prior, waiting, q, n + 1);
      a, b := head + c, d;
      assert head + (c + ([prior[q]] + d)) == (head + c) + ([prior[q]] + d);
      assert head + (c + d) == (head + c) + d;
    }
  }

  // ----- Conservation of identities -----

  /** How often identity r occurs in a tree, and in a list of trees. */
  function Occurs(n: Node, r: nat): nat
    decreases n, 1
  {
    (if n.ref == r then 1 else 0) + if n.Text? then 0 else OccursIn(n.kids, r)
  }

  function OccursIn(ns: seq<Node>, r: nat): nat
    decreases ns, 0
  {
    if ns == [] then 0 else Occurs(ns[0], r) + OccursIn(ns[1..], r)
  }

  lemma {:induction false} OccursAppend(a: seq<Node>, b: seq<Node>, r: nat)
    ensures OccursIn(a + b, r) == OccursIn(a, r) + OccursIn(b, r)
    decreases |a|
  {
    if a == [] {
      assert a + b == b;
    } else {
      assert (a + b)[1..] == a[1..] + b;
      OccursAppend(a[1..], b, r);
    }
  }

  lemma OccursSplit(a: seq<Node>, n: Node, b: seq<Node>, r: nat)
    ensures OccursIn(a + ([n] + b), r) == OccursIn(a, r) + Occurs(n, r) + OccursIn(b, r)
  {
    OccursAppend(a, [n] + b, r);
    assert ([n] + b)[1..] == b;
  }

  lemma LeftAll(prior: seq<Node>, n: nat)
    requires n <= |prior|
    ensures Left(prior, WaitingSet(prior, []), n) == prior[n..]
    decreases |prior| - n
  {
    if n < |prior| {
      LeftAll(prior, n + 1);
      assert Waiting(prior, [], n);
    }
  }

  lemma {:induction false} PatchedOccurs(live: Node, next: Node, r: nat)
    ensures Occurs(Patched(live, next), r) <= Occurs(live, r) + Occurs(next, r)
    decreases next, 1
  {
    if SameKind(live, next) && live.Element? {
      ReconciledOccurs(live.kids, next.kids, |next.kids|, r);
      assert next.kids[..|next.kids|] == next.kids;
      assert Reconciled(live.kids, next.kids)[..|next.kids|] == Reconciled(live.kids, next.kids);
    }
  }

  /** The live nodes not yet serving, in order: the tail of the child list during the loop. */
  function Rest(prior: seq<Node>, done: seq<Node>): seq<Node> {
    Left(prior, WaitingSet(prior, done), 0)
  }

  lemma ReconciledAt(prior: seq<Node>, wanted: seq<Node>, i: nat)
    requires i < |wanted|
    ensures Reconciled(prior, wanted)[i]
         == var p := Server(prior, wanted, i); if p.Some? then Patched(prior[p.value], wanted[i]) else wanted[i]
  {
  }

  /** Conservation: at every point, the done positions and the waiting live nodes together hold no
      identity more often than the live and fresh lists did. */
  lemma {:induction false} ReconciledOccurs(prior: seq<Node>, wanted: seq<Node>, n: nat, r: nat)
    requires n <= |wanted|
    ensures OccursIn(Reconciled(prior, wanted)[..n], r) + OccursIn(Rest(prior, wanted[..n]), r)
         <= OccursIn(prior, r) + OccursIn(wanted[..n], r)
    decreases wanted, 0, n
  {
    if n == 0 {
      LeftAll(prior, 0);
    } else {
      ReconciledOccurs(prior, wanted, n - 1, r);
      AtOccurs(prior, wanted, n - 1, r);
      TakenOccurs(prior, wanted[..n - 1], wanted[n - 1], r);
      Longer(wanted, n - 1);
      OccursStep(Reconciled(prior, wanted), wanted, n, r, OccursIn(Rest(prior, wanted[..n - 1]), r),
                 OccursIn(Rest(prior, wanted[..n]), r), OccursIn(prior, r));
    }
  }

  lemma OccursStep(done: seq<Node>, wanted: seq<Node>, n: nat, r: nat, waiting: int, left: int, all: int)
    requires 0 < n <= |wanted| == |done|
    requires OccursIn(done[..n - 1], r) + waiting <= all + OccursIn(wanted[..n - 1], r)
    requires Occurs(done[n - 1], r) <= Occurs(wanted[n - 1], r) + (waiting - left)
    ensures OccursIn(done[..n], r) + left <= all + OccursIn(wanted[..n], r)
  {
    PrefixSnoc(wanted, n - 1, r);
    PrefixSnoc(done, n - 1, r);
  }

  /** A position holds no identity more often than its server and its fresh node together. */
  lemma {:induction false} AtOccurs(prior: seq<Node>, wanted: seq<Node>, i: nat, r: nat)
    requires i < |wanted|
    ensures Occurs(Reconciled(prior, wanted)[i], r)
         <= Occurs(wanted[i], r) + var p := Server(prior, wanted, i); if p.Some? then Occurs(prior[p.value], r) else 0
    decreases wanted, 0, i
  {
    ReconciledAt(prior, wanted, i);
    var p := Server(prior, wanted, i);
    if p.Some? { PatchedOccurs(prior[p.value], wanted[i], r); }
  }

  lemma PrefixSnoc(ns: seq<Node>, n: nat, r: nat)
    requires n < |ns|
    ensures OccursIn(ns[..n + 1], r) == OccursIn(ns[..n], r) + Occurs(ns[n], r)
  {
    assert ns[..n + 1] == ns[..n] + [ns[n]];
    OccursSnoc(ns[..n], ns[n], r);
  }

  lemma OccursSnoc(a: seq<Node>, n: Node, r: nat)
    ensures OccursIn(a + [n], r) == OccursIn(a, r) + Occurs(n, r)
  {
    OccursAppend(a, [n], r);
    assert [n][1..] == [];
  }

  /** Serving x takes its server's identities off the waiting list. */
  lemma TakenOccurs(prior: seq<Node>, done: seq<Node>, x: Node, r: nat)
    ensures var q := Occurrence(prior, SlotOf(x), Count(done, SlotOf(x)));
            OccursIn(Rest(prior, done), r) == OccursIn(Rest(prior, done + [x]), r) + if q.Some? then Occurs(prior[q.value], r) else 0
  {
    var q := Occurrence(prior, SlotOf(x), Count(done, SlotOf(x)));
    WaitingSetStep(prior, done, x);
    if q.Some? {
      var a, b := LeftDrop(prior, WaitingSet(prior, done), q.value, 0);
      OccursSplit(a, prior[q.value], b, r);
      OccursAppend(a, b, r);
    }
  }

  /** All identities of the two lists are different, at every depth. */
  ghost predicate Apart(a: seq<Node>, b: seq<Node>) {
    forall r: nat :: OccursIn(a, r) + OccursIn(b, r) <= 1
  }

  /** No identity occurs twice in the reconciled tree, and none comes from elsewhere. */
  lemma NoIdentityTwice(prior: seq<Node>, wanted: seq<Node>, r: nat)
    requires Apart(prior, wanted)
    ensures OccursIn(Reconciled(prior, wanted), r) <= OccursIn(prior, r) + OccursIn(wanted, r) <= 1
  {
    ReconciledOccurs(prior, wanted, |wanted|, r);
    assert wanted[..|wanted|] == wanted;
    assert Reconciled(prior, wanted)[..|wanted|] == Reconciled(prior, wanted);
  }

  // ----- The source's loop -----

  function Detach(kids: seq<Node>, ref: nat): seq<Node> {
    if kids == [] then []
    else (if kids[0].ref == ref then [] else [kids[0]]) + Detach(kids[1..], ref)
  }

  /** DOM insertBefore: take the node out of the list if it is there, put it before position i. */
  function InsertBefore(kids: seq<Node>, n: Node, i: nat): seq<Node>
    requires i <= |kids|
  {
    Detach(kids[..i], n.ref) + [n] + Detach(kids[i..], n.ref)
  }

  lemma {:induction false} DetachNone(kids: seq<Node>, ref: nat)
    requires OccursIn(kids, ref) == 0
    ensures Detach(kids, ref) == kids
  {
    if kids != [] { DetachNone(kids[1..], ref); }
  }

  lemma {:induction false} DetachAppend(a: seq<Node>, b: seq<Node>, ref: nat)
    ensures Detach(a + b, ref) == Detach(a, ref) + Detach(b, ref)
    decreases |a|
  {
    if a == [] {
      assert a + b == b;
    } else {
      assert (a + b)[1..] == a[1..] + b;
      DetachAppend(a[1..], b, ref);
    }
  }

  lemma DetachMiddle(a: seq<Node>, n: Node, b: seq<Node>)
    requires OccursIn(a + ([n] + b), n.ref) <= 1
    ensures Detach(a, n.ref) == a && Detach([n] + b, n.ref) == b && Detach(a + ([n] + b), n.ref) == a + b
  {
    OccursSplit(a, n, b, n.ref);
    DetachNone(a, n.ref);
    DetachNone(b, n.ref);
    DetachAppend(a, [n] + b, n.ref);
    assert ([n] + b)[1..] == b;
  }

  lemma {:induction false} OccursMember(ns: seq<Node>, i: nat)
    requires i < |ns|
    ensures OccursIn(ns, ns[i].ref) >= 1
  {
    if i > 0 { OccursMember(ns[1..], i - 1); }
  }

  lemma {:induction false} SoleSiblings(ns: seq<Node>, i: nat, j: nat)
    requires i < j < |ns| && OccursIn(ns, ns[j].ref) <= 1
    ensures ns[i].ref != ns[j].ref
  {
    if i == 0 {
      OccursMember(ns[1..], j - 1);
    } else {
      SoleSiblings(ns[1..], i - 1, j - 1);
    }
  }

  /** A node is marked used exactly when it is no longer waiting. */
  ghost predicate UsedIsServed(prior: seq<Node>, done: seq<Node>, used: set<nat>) {
    forall k :: 0 <= k < |prior| ==> (prior[k].ref in used <==> !Waiting(prior, done, k))
  }

  ghost predicate FirstUnused(prior: seq<Node>, used: set<nat>, next: Node, p: Option<nat>) {
    var end := if p.Some? then p.value else |prior|;
    && (p.Some? ==> p.value < |prior| && prior[p.value].ref !in used && Matches(prior[p.value], next))
    && (forall k :: 0 <= k < end <= |prior| ==> prior[k].ref in used || !Matches(prior[k], next))
  }

  method FindMatch(prior: seq<Node>, used: set<nat>, next: Node) returns (p: Option<nat>)
    ensures FirstUnused(prior, used, next, p)
  {
    for k := 0 to |prior|
      invariant forall j :: 0 <= j < k ==> prior[j].ref in used || !Matches(prior[j], next)
    {
      if prior[k].ref !in used && Matches(prior[k], next) { return Some(k); }
    }
    return None;
  }

  lemma MatchesSlot(n: Node, next: Node)
    ensures Matches(n, next) <==> SlotOf(n) == SlotOf(next)
  {
  }

  lemma FirstOfRank(prior: seq<Node>, s: Slot, n: nat, p: Option<nat>)
    requires var q := Occurrence(prior, s, n); q.Some? ==> p.Some? && p.value <= q.value
    requires p.Some? ==> p.value < |prior| && SlotOf(prior[p.value]) == s && Count(prior[..p.value], s) >= n
    ensures p == Occurrence(prior, s, n)
  {
    SameRank(prior, s, n, p, Occurrence(prior, s, n));
  }

  lemma SameRank(prior: seq<Node>, s: Slot, n: nat, p: Option<nat>, q: Option<nat>)
    requires p.Some? ==> p.value < |prior| && SlotOf(prior[p.value]) == s && Count(prior[..p.value], s) >= n
    requires q.Some? ==> q.value < |prior| && SlotOf(prior[q.value]) == s && Count(prior[..q.value], s) == n
    requires q.None? ==> Count(prior, s) <= n
    requires q.Some? ==> p.Some? && p.value <= q.value
    ensures p == q
  {
    if p.Some? && q.None? {
      RankBelowTotal(prior, s, p.value);
    } else if p.Some? && p.value < q.value {
      LateRank(prior, s, p.value, q);
    }
  }

  lemma UnusedIsLate(prior: seq<Node>, done: seq<Node>, used: set<nat>, next: Node, k: nat)
    requires UsedIsServed(prior, done, used) && k < |prior| && SlotOf(prior[k]) == SlotOf(next)
    ensures prior[k].ref !in used <==> Count(prior[..k], SlotOf(next)) >= Count(done, SlotOf(next))
  {
  }

  /** The first unused match is the next occurrence of the slot. */
  lemma FirstUnusedIsServer(prior: seq<Node>, done: seq<Node>, used: set<nat>, next: Node, p: Option<nat>)
    requires UsedIsServed(prior, done, used) && FirstUnused(prior, used, next, p)
    ensures p == Occurrence(prior, SlotOf(next), Count(done, SlotOf(next)))
  {
    var q := Occurrence(prior, SlotOf(next), Count(done, SlotOf(next)));
    if q.Some? {
      MatchesSlot(prior[q.value], next);
      UnusedIsLate(prior, done, used, next, q.value);
    }
    if p.Some? {
      MatchesSlot(prior[p.value], next);
      UnusedIsLate(prior, done, used, next, p.value);
    }
    FirstOfRank(prior, SlotOf(next), Count(done, SlotOf(next)), p);
  }

  lemma LateRank(prior: seq<Node>, s: Slot, p: nat, q: Option<nat>)
    requires p < |prior| && SlotOf(prior[p]) == s
    requires q.Some? ==> q.value < |prior|
    ensures q.Some? && p < q.value ==> Count(prior[..p], s) < Count(prior[..q.value], s)
  {
    if q.Some? && p < q.value { CountMonotone(prior, s, p, q.value); }
  }

  lemma RankBelowTotal(ns: seq<Node>, s: Slot, k: nat)
    requires k < |ns| && SlotOf(ns[k]) == s
    ensures Count(ns[..k], s) < Count(ns, s)
  {
    assert ns[..|ns|] == ns;
    CountMonotone(ns, s, k, |ns|);
  }

  lemma UsedStep(prior: seq<Node>, done: seq<Node>, used: set<nat>, next: Node, p: Option<nat>)
    requires Apart(prior, []) && UsedIsServed(prior, done, used)
    requires p == Occurrence(prior, SlotOf(next), Count(done, SlotOf(next)))
    ensures UsedIsServed(prior, done + [next], if p.Some? then used + {prior[p.value].ref} else used)
  {
    forall k | 0 <= k < |prior|
      ensures prior[k].ref in (if p.Some? then used + {prior[p.value].ref} else used)
         <==> !Waiting(prior, done + [next], k)
    {
      WaitingStep(prior, done, next, k);
      if p.Some? { OwnRef(prior, k, p.value); }
    }
  }

  lemma OwnRef(ns: seq<Node>, i: nat, j: nat)
    requires Apart(ns, []) && i < |ns| && j < |ns|
    ensures ns[i].ref == ns[j].ref <==> i == j
  {
    assert OccursIn(ns, ns[i].ref) + OccursIn([], ns[i].ref) <= 1;
    assert OccursIn(ns, ns[j].ref) + OccursIn([], ns[j].ref) <= 1;
    if i < j { SoleSiblings(ns, i, j); }
    if j < i { SoleSiblings(ns, j, i); }
  }

  /** The child list in the middle of the loop shares no identity with the next fresh node. */
  lemma KidsApart(prior: seq<Node>, wanted: seq<Node>, i: nat, r: nat)
    requires Apart(prior, wanted) && i < |wanted|
    ensures OccursIn(Reconciled(prior, wanted)[..i], r) + OccursIn(Rest(prior, wanted[..i]), r) + Occurs(wanted[i], r) <= 1
  {
    ReconciledOccurs(prior, wanted, i, r);
    AheadOccurs(wanted, i, r);
    assert OccursIn(prior, r) + OccursIn(wanted, r) <= 1;
  }

  lemma AheadOccurs(ns: seq<Node>, i: nat, r: nat)
    requires i < |ns|
    ensures OccursIn(ns[..i], r) + Occurs(ns[i], r) <= OccursIn(ns, r)
  {
    assert ns == ns[..i] + ([ns[i]] + ns[i + 1..]);
    OccursSplit(ns[..i], ns[i], ns[i + 1..], r);
  }

  /** Moving a waiting node to the front of the waiting part. */
  lemma MoveUp(x: seq<Node>, a: seq<Node>, live: Node, b: seq<Node>)
    requires OccursIn(x, live.ref) == 0 && OccursIn(a + ([live] + b), live.ref) <= 1
    ensures InsertBefore(x + (a + ([live] + b)), live, |x|) == x + [live] + (a + b)
    ensures a != [] ==> a[0].ref != live.ref
  {
    var tail := a + ([live] + b);
    DetachNone(x, live.ref);
    DetachMiddle(a, live, b);
    assert (x + tail)[..|x|] == x && (x + tail)[|x|..] == tail;
    if a != [] { SoleSiblings(tail, 0, |a|); }
  }

  /** One turn of the loop when live node q serves position i: the child list after the move. */
  lemma ServeLive(prior: seq<Node>, wanted: seq<Node>, i: nat, q: nat, kids: seq<Node>)
    requires Apart(prior, wanted) && i < |wanted| && q < |prior|
    requires Server(prior, wanted, i) == Some(q)
    requires kids == Reconciled(prior, wanted)[..i] + Rest(prior, wanted[..i])
    ensures Apart([prior[q]], [wanted[i]]) && i < |kids|
    ensures var moved := if kids[i].ref != prior[q].ref then InsertBefore(kids, prior[q], i) else kids;
            moved == Reconciled(prior, wanted)[..i] + [prior[q]] + Rest(prior, wanted[..i] + [wanted[i]])
  {
    forall r: nat ensures OccursIn([prior[q]], r) + OccursIn([wanted[i]], r) <= 1 {
      KidsApart(prior, wanted, i, r);
      ServingApart(prior, wanted[..i], wanted[i], q, r);
    }
    KidsApart(prior, wanted, i, prior[q].ref);
    ServeNext(Reconciled(prior, wanted)[..i], prior, wanted[..i], wanted[i], q);
  }

  lemma ServingApart(prior: seq<Node>, done: seq<Node>, next: Node, q: nat, r: nat)
    requires q < |prior| && Occurrence(prior, SlotOf(next), Count(done, SlotOf(next))) == Some(q)
    requires OccursIn(Rest(prior, done), r) + Occurs(next, r) <= 1
    ensures OccursIn([prior[q]], r) + OccursIn([next], r) <= 1
  {
    TakenOccurs(prior, done, next, r);
    OccursOne(prior[q], r);
    OccursOne(next, r);
  }

  lemma ServeNext(x: seq<Node>, prior: seq<Node>, done: seq<Node>, next: Node, q: nat)
    requires q < |prior| && Occurrence(prior, SlotOf(next), Count(done, SlotOf(next))) == Some(q)
    requires OccursIn(x, prior[q].ref) + OccursIn(Rest(prior, done), prior[q].ref) <= 1
    ensures var kids := x + Rest(prior, done);
            && |x| < |kids|
            && (if kids[|x|].ref != prior[q].ref then InsertBefore(kids, prior[q], |x|) else kids)
               == x + [prior[q]] + Rest(prior, done + [next])
  {
    WaitingSetStep(prior, done, next);
    var a, b := LeftDrop(prior, WaitingSet(prior, done), q, 0);
    PutUp(x, a, prior[q], b);
  }

  lemma PutUp(x: seq<Node>, a: seq<Node>, live: Node, b: seq<Node>)
    requires OccursIn(x, live.ref) + OccursIn(a + ([live] + b), live.ref) <= 1
    ensures var kids := x + (a + ([live] + b));
            && |x| < |kids|
            && (if kids[|x|].ref != live.ref then InsertBefore(kids, live, |x|) else kids) == x + [live] + (a + b)
  {
    OnlyThere(x, a, live, b);
    FirstOf(a, live, b);
    FirstAfter(x, a + ([live] + b));
    if a == [] {
      Regroup(x, [live], a + b);
    } else {
      MoveUp(x, a, live, b);
    }
  }

  lemma OnlyThere(x: seq<Node>, a: seq<Node>, live: Node, b: seq<Node>)
    requires OccursIn(x, live.ref) + OccursIn(a + ([live] + b), live.ref) <= 1
    ensures OccursIn(x, live.ref) == 0 && OccursIn(a + ([live] + b), live.ref) <= 1
  {
    OccursSplit(a, live, b, live.ref);
  }

  lemma FirstAfter(x: seq<Node>, tail: seq<Node>)
    requires tail != []
    ensures (x + tail)[|x|] == tail[0]
  {
  }

  lemma Regroup(a: seq<Node>, b: seq<Node>, c: seq<Node>)
    ensures a + (b + c) == a + b + c
  {
  }

  lemma FirstOf(a: seq<Node>, n: Node, b: seq<Node>)
    ensures (a + ([n] + b))[0] == if a != [] then a[0] else n
    ensures a == [] ==> a + ([n] + b) == [n] + (a + b)
  {
  }

  lemma OccursOne(n: Node, r: nat)
    ensures OccursIn([n], r) == Occurs(n, r)
  {
    assert [n][1..] == [];
  }

  /** One turn of the loop when the fresh node itself is inserted at position i. */
  lemma ServeFresh(prior: seq<Node>, wanted: seq<Node>, i: nat, kids: seq<Node>)
    requires Apart(prior, wanted) && i < |wanted| && Server(prior, wanted, i) == None
    requires kids == Reconciled(prior, wanted)[..i] + Rest(prior, wanted[..i])
    ensures InsertBefore(kids, wanted[i], i)
         == Reconciled(prior, wanted)[..i] + [wanted[i]] + Rest(prior, wanted[..i] + [wanted[i]])
  {
    var x, y := Reconciled(prior, wanted)[..i], Rest(prior, wanted[..i]);
    WaitingSetStep(prior, wanted[..i], wanted[i]);
    KidsApart(prior, wanted, i, wanted[i].ref);
    assert kids[..i] == x && kids[i..] == y;
    DetachNone(x, wanted[i].ref);
    DetachNone(y, wanted[i].ref);
  }

  /** The live attributes that stay while those in `todo` have not been looked at. */
  function Remaining(live: Attributes, wanted: Attributes, todo: set<string>): Attributes {
    map k | k in live && (k in todo || k in wanted || k == "open") :: live[k]
  }

  lemma RemainingStep(live: Attributes, wanted: Attributes, todo: set<string>, a: string)
    requires a in todo
    ensures Remaining(live, wanted, todo - {a}) ==
            if a !in wanted && a != "open" then Remaining(live, wanted, todo) - {a} else Remaining(live, wanted, todo)
  {
  }

  lemma RemainingEnds(live: Attributes, wanted: Attributes)
    ensures Remaining(live, wanted, live.Keys) == live
    ensures Remaining(live, wanted, {}) + Set(wanted, wanted.Keys) == PatchedAttrs(live, wanted)
  {
    var all := Remaining(live, wanted, {}) + Set(wanted, wanted.Keys);
    forall k ensures k in all <==> k in PatchedAttrs(live, wanted) {}
    forall k | k in all ensures all[k] == PatchedAttrs(live, wanted)[k] {}
  }

  method PatchAttrs(live: Attributes, wanted: Attributes) returns (attrs: Attributes)
    ensures attrs == PatchedAttrs(live, wanted)
  {
    attrs := live;
    var todo := live.Keys;
    RemainingEnds(live, wanted);
    while todo != {}
      invariant attrs == Remaining(live, wanted, todo)
      decreases |todo|
    {
      var a :| a in todo;
      RemainingStep(live, wanted, todo, a);
      todo := todo - {a};
      if a !in wanted && a != "open" { attrs := attrs - {a}; }
    }
    attrs := SetAttrs(attrs, wanted);
  }

  /** The wanted attributes set so far; `open` is never set. */
  function Set(wanted: Attributes, done: set<string>): Attributes {
    map k | k in wanted && k in done && k != "open" :: wanted[k]
  }

  lemma SetOne(start: Attributes, wanted: Attributes, done: set<string>, a: string)
    requires a in wanted
    ensures start + Set(wanted, done + {a}) ==
            if a == "open" then start + Set(wanted, done) else (start + Set(wanted, done))[a := wanted[a]]
  {
  }

  lemma SetNone(start: Attributes, wanted: Attributes)
    ensures start + Set(wanted, {}) == start
  {
  }

  method SetAttrs(start: Attributes, wanted: Attributes) returns (attrs: Attributes)
    ensures attrs == start + Set(wanted, wanted.Keys)
  {
    attrs := start;
    var todo := wanted.Keys;
    SetNone(start, wanted);
    assert wanted.Keys - todo == {};
    while todo != {}
      invariant todo <= wanted.Keys && attrs == start + Set(wanted, wanted.Keys - todo)
      decreases |todo|
    {
      var a :| a in todo;
      SetOne(start, wanted, wanted.Keys - todo, a);
      assert wanted.Keys - (todo - {a}) == (wanted.Keys - todo) + {a};
      todo := todo - {a};
      if a != "open" && (a !in attrs || attrs[a] != wanted[a]) { attrs := attrs[a := wanted[a]]; }
    }
    assert wanted.Keys - {} == wanted.Keys;
  }

  lemma KidsOfApart(live: Node, next: Node)
    requires Apart([live], [next]) && live.Element? && next.Element?
    ensures Apart(live.kids, next.kids)
  {
    forall r: nat ensures OccursIn(live.kids, r) + OccursIn(next.kids, r) <= 1 {
      OccursOne(live, r);
      OccursOne(next, r);
      assert OccursIn([live], r) + OccursIn([next], r) <= 1;
    }
  }

  /** patch: a node of another kind is replaced; otherwise data, attributes and children are edited. */
  method Patch(live: Node, next: Node) returns (r: Node)
    requires Apart([live], [next])
    ensures r == Patched(live, next)
    decreases next, 1
  {
    if !SameKind(live, next) { return next; }
    if live.Text? {
      r := live;
      if r.data != next.data { r := r.(data := next.data); }
      return;
    }
    var attrs := PatchAttrs(live.attrs, next.attrs);
    KidsOfApart(live, next);
    var kids := Children(live.kids, next.kids);
    r := live.(attrs := attrs, kids := kids);
  }

  /** children: serve the fresh positions one by one, moving or inserting nodes in the child list, then
      remove the live nodes that served none. */
  method Children(target: seq<Node>, wanted: seq<Node>) returns (kids: seq<Node>)
    requires Apart(target, wanted)
    ensures kids == Reconciled(target, wanted)
    decreases wanted, 0
  {
    var prior := target;
    var used: set<nat> := {};
    kids := target;
    ghost var r := Reconciled(prior, wanted);
    assert Apart(prior, []) by { ApartAlone(prior, wanted); }
    StartOfLoop(prior);
    for i := 0 to |wanted|
      invariant kids == r[..i] + Rest(prior, wanted[..i])
      invariant UsedIsServed(prior, wanted[..i], used)
    {
      var next := wanted[i];
      var p := FindMatch(prior, used, next);
      FirstUnusedIsServer(prior, wanted[..i], used, next, p);
      UsedStep(prior, wanted[..i], used, next, p);
      ReconciledAt(prior, wanted, i);
      ghost var rest := Rest(prior, wanted[..i] + [next]);
      if p.Some? {
        var live := prior[p.value];
        used := used + {live.ref};
        ServeLive(prior, wanted, i, p.value, kids);
        if kids[i].ref != live.ref { kids := InsertBefore(kids, live, i); }
        var patched := Patch(live, next);
        SetAt(r[..i], live, rest, patched);
        kids := kids[i := patched];
      } else {
        ServeFresh(prior, wanted, i, kids);
        kids := InsertBefore(kids, next, i);
      }
      assert kids == r[..i] + [r[i]] + rest;
      Longer(wanted, i);
      Longer(r, i);
    }
    Longer(wanted, |wanted|);
    Longer(r, |r|);
    forall n | 0 <= n < |prior| && n in WaitingSet(prior, wanted)
      ensures OccursIn(r + ([prior[n]] + Left(prior, WaitingSet(prior, wanted), n + 1)), prior[n].ref) <= 1
    {
      LeftoverOnce(prior, wanted, n);
    }
    kids := RemoveUnused(prior, used, kids, r, WaitingSet(prior, wanted));
  }

  lemma SetAt(a: seq<Node>, n: Node, b: seq<Node>, m: Node)
    ensures (a + [n] + b)[|a| := m] == a + [m] + b
  {
  }

  lemma Longer(ns: seq<Node>, i: nat)
    requires i <= |ns|
    ensures i < |ns| ==> ns[..i + 1] == ns[..i] + [ns[i]]
    ensures i == |ns| ==> ns[..i] == ns
  {
  }

  lemma ApartAlone(prior: seq<Node>, wanted: seq<Node>)
    requires Apart(prior, wanted)
    ensures Apart(prior, [])
  {
    forall r: nat ensures OccursIn(prior, r) + OccursIn([], r) <= 1 {
      assert OccursIn(prior, r) + OccursIn(wanted, r) <= 1;
    }
  }

  lemma StartOfLoop(prior: seq<Node>)
    ensures Rest(prior, []) == prior && UsedIsServed(prior, [], {})
  {
    LeftAll(prior, 0);
  }

  method RemoveUnused(prior: seq<Node>, used: set<nat>, start: seq<Node>, ghost r: seq<Node>, ghost waiting: set<nat>)
    returns (kids: seq<Node>)
    requires start == r + Left(prior, waiting, 0)
    requires forall n :: 0 <= n < |prior| ==> (prior[n].ref in used <==> n !in waiting)
    requires forall n :: 0 <= n < |prior| && n in waiting ==>
                           OccursIn(r + ([prior[n]] + Left(prior, waiting, n + 1)), prior[n].ref) <= 1
    ensures kids == r
  {
    kids := start;
    for n := 0 to |prior|
      invariant kids == r + Left(prior, waiting, n)
    {
      LeftUnfold(prior, waiting, n);
      if prior[n].ref !in used {
        DetachMiddle(r, prior[n], Left(prior, waiting, n + 1));
        kids := Detach(kids, prior[n].ref);
      }
    }
  }

  lemma {:induction false} LeftGrows(prior: seq<Node>, waiting: set<nat>, n: nat, r: nat)
    requires n <= |prior|
    ensures OccursIn(Left(prior, waiting, n), r) <= OccursIn(Left(prior, waiting, 0), r)
  {
    if n > 0 {
      LeftGrows(prior, waiting, n - 1, r);
      var head := if n - 1 in waiting then [prior[n - 1]] else [];
      OccursAppend(head, Left(prior, waiting, n), r);
    }
  }

  /** A leftover live node does not share its identity with anything kept. */
  lemma LeftoverOnce(prior: seq<Node>, wanted: seq<Node>, n: nat)
    requires Apart(prior, wanted) && n < |prior| && n in WaitingSet(prior, wanted)
    ensures OccursIn(Reconciled(prior, wanted) + ([prior[n]] + Left(prior, WaitingSet(prior, wanted), n + 1)), prior[n].ref) <= 1
  {
    var rec, ref, tail := Reconciled(prior, wanted), prior[n].ref, Left(prior, WaitingSet(prior, wanted), n + 1);
    ReconciledOccurs(prior, wanted, |wanted|, ref);
    assert wanted[..|wanted|] == wanted && rec[..|wanted|] == rec;
    LeftGrows(prior, WaitingSet(prior, wanted), n, ref);
    OccursAppend(rec, [prior[n]] + tail, ref);
  }
}
