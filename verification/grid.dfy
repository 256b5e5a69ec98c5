/** The 12-column dashboard grid of prototype/dashboard-widgets.js.

    `Relocate` is the editor's drag-and-drop: the moved widget is put exactly where it was
    dropped and every widget it now collides with is pushed down, in reading order.  The
    source jumps a colliding widget to the lowest bottom edge among its current blockers;
    the reference used here (`RowScan`) goes down one row at a time. */
module Grid {
  import opened Wrappers

  const COLUMNS := 12
  const MAX_ROW := 240

  datatype Widget = Widget(id: string, x: int, y: int, w: int, h: int, config: string)

  datatype Destination = Beside(targetId: string, side: string) | At(x: real, y: real)

  predicate Overlaps(a: Widget, b: Widget) {
    a.x < b.x + b.w && a.x + a.w > b.x && a.y < b.y + b.h && a.y + a.h > b.y
  }

  ghost predicate OverlapFree(ws: seq<Widget>) {
    forall i, j :: 0 <= i < j < |ws| ==> !Overlaps(ws[i], ws[j])
  }

  // ----- Reading order: the stable sort by (y, x) -----

  /** Widget p comes before widget q: smaller row, then smaller column, then list position. */
  predicate Before(ws: seq<Widget>, p: nat, q: nat)
    requires p < |ws| && q < |ws|
  {
    ws[p].y < ws[q].y || (ws[p].y == ws[q].y && (ws[p].x < ws[q].x || (ws[p].x == ws[q].x && p < q)))
  }

  predicate IndicesOf(ws: seq<Widget>, order: seq<nat>) {
    forall i :: 0 <= i < |order| ==> order[i] < |ws|
  }

  ghost predicate Distinct(order: seq<nat>) {
    forall i, j :: 0 <= i < j < |order| ==> order[i] != order[j]
  }

  ghost predicate InOrder(ws: seq<Widget>, order: seq<nat>)
    requires IndicesOf(ws, order)
  {
    forall i, j :: 0 <= i < j < |order| ==> Before(ws, order[i], order[j])
  }

  function Insert(ws: seq<Widget>, k: nat, order: seq<nat>): (r: seq<nat>)
    requires k < |ws| && IndicesOf(ws, order)
    ensures IndicesOf(ws, r)
  {
    if order == [] || Before(ws, k, order[0]) then [k] + order
    else [order[0]] + Insert(ws, k, order[1..])
  }

  function SortIndices(ws: seq<Widget>, idx: seq<nat>): (r: seq<nat>)
    requires IndicesOf(ws, idx)
    ensures IndicesOf(ws, r)
  {
    if idx == [] then [] else Insert(ws, idx[0], SortIndices(ws, idx[1..]))
  }

  function Indices(n: nat): (r: seq<nat>)
    ensures |r| == n && forall i :: 0 <= i < n ==> r[i] == i
  {
    seq(n, i => i)
  }

  function Picked(ws: seq<Widget>, order: seq<nat>): (r: seq<Widget>)
    requires IndicesOf(ws, order)
  {
    seq(|order|, i requires 0 <= i < |order| => ws[order[i]])
  }

  /** The widgets in reading order, ties in list order: the source's final sort. */
  function Arrange(ws: seq<Widget>): (r: seq<Widget>) {
    Picked(ws, SortIndices(ws, Indices(|ws|)))
  }

  lemma {:induction false} InsertMultiset(ws: seq<Widget>, k: nat, order: seq<nat>)
    requires k < |ws| && IndicesOf(ws, order)
    ensures multiset(Insert(ws, k, order)) == multiset(order) + multiset{k}
  {
    if order != [] && !Before(ws, k, order[0]) {
      InsertMultiset(ws, k, order[1..]);
      assert order == [order[0]] + order[1..];
    }
  }

  lemma {:induction false} InsertSorted(ws: seq<Widget>, k: nat, order: seq<nat>)
    requires k < |ws| && IndicesOf(ws, order) && InOrder(ws, order) && k !in order
    ensures InOrder(ws, Insert(ws, k, order))
  {
    if order != [] && !Before(ws, k, order[0]) {
      var tail := Insert(ws, k, order[1..]);
      InsertSorted(ws, k, order[1..]);
      InsertMultiset(ws, k, order[1..]);
      forall j | 0 <= j < |tail| ensures Before(ws, order[0], tail[j]) {
        assert tail[j] in multiset(tail);
        assert tail[j] == k || tail[j] in order[1..];
      }
    } else if order != [] {
      forall j | 0 <= j < |order| ensures Before(ws, k, order[j]) {
        assert j == 0 || Before(ws, order[0], order[j]);
      }
    }
  }

  lemma FirstAndRest(idx: seq<nat>)
    requires idx != []
    ensures multiset(idx) == multiset(idx[1..]) + multiset{idx[0]}
  {
    assert idx == [idx[0]] + idx[1..];
  }

  lemma {:induction false} SortMultiset(ws: seq<Widget>, idx: seq<nat>)
    requires IndicesOf(ws, idx)
    ensures multiset(SortIndices(ws, idx)) == multiset(idx)
  {
    if idx != [] {
      SortMultiset(ws, idx[1..]);
      InsertMultiset(ws, idx[0], SortIndices(ws, idx[1..]));
      FirstAndRest(idx);
    }
  }

  lemma SortMembers(ws: seq<Widget>, idx: seq<nat>, k: nat)
    requires IndicesOf(ws, idx)
    ensures k in SortIndices(ws, idx) <==> k in idx
  {
    SortMultiset(ws, idx);
    assert k in SortIndices(ws, idx) <==> k in multiset(SortIndices(ws, idx));
    assert k in idx <==> k in multiset(idx);
  }

  lemma {:induction false} SortOrdered(ws: seq<Widget>, idx: seq<nat>)
    requires IndicesOf(ws, idx) && Distinct(idx)
    ensures InOrder(ws, SortIndices(ws, idx))
  {
    if idx != [] {
      assert Distinct(idx[1..]);
      SortOrdered(ws, idx[1..]);
      SortMembers(ws, idx[1..], idx[0]);
      InsertSorted(ws, idx[0], SortIndices(ws, idx[1..]));
    }
  }

  lemma SortSpec(ws: seq<Widget>, idx: seq<nat>)
    requires IndicesOf(ws, idx) && Distinct(idx)
    ensures InOrder(ws, SortIndices(ws, idx)) && Distinct(SortIndices(ws, idx))
    ensures multiset(SortIndices(ws, idx)) == multiset(idx) && |SortIndices(ws, idx)| == |idx|
    ensures forall k: nat :: k in SortIndices(ws, idx) <==> k in idx
  {
    SortOrdered(ws, idx);
    SortMultiset(ws, idx);
    assert |multiset(SortIndices(ws, idx))| == |multiset(idx)|;
    forall k: nat ensures k in SortIndices(ws, idx) <==> k in idx { SortMembers(ws, idx, k); }
  }

  /** Sorting keeps exactly the same widgets and yields reading order. */
  lemma ArrangeSpec(ws: seq<Widget>)
    ensures |Arrange(ws)| == |ws| && multiset(Arrange(ws)) == multiset(ws)
    ensures forall i, j :: 0 <= i < j < |ws| ==>
                             var a, b := Arrange(ws)[i], Arrange(ws)[j]; a.y < b.y || (a.y == b.y && a.x <= b.x)
    ensures OverlapFree(ws) ==> OverlapFree(Arrange(ws))
    ensures forall k :: 0 <= k < |ws| ==> Arrange(ws)[k] in ws
  {
    SortSpec(ws, Indices(|ws|));
    var order := SortIndices(ws, Indices(|ws|));
    SortPicked(ws, Indices(|ws|));
    assert Picked(ws, Indices(|ws|)) == ws;
    if OverlapFree(ws) {
      forall i, j | 0 <= i < j < |ws| ensures !Overlaps(Arrange(ws)[i], Arrange(ws)[j]) {
        assert order[i] != order[j];
        if order[i] < order[j] {
          assert !Overlaps(ws[order[i]], ws[order[j]]);
        } else {
          assert !Overlaps(ws[order[j]], ws[order[i]]);
        }
      }
    }
  }

  lemma PickedCons(ws: seq<Widget>, k: nat, order: seq<nat>)
    requires k < |ws| && IndicesOf(ws, order)
    ensures Picked(ws, [k] + order) == [ws[k]] + Picked(ws, order)
  {
  }

  lemma {:induction false} InsertPicked(ws: seq<Widget>, k: nat, order: seq<nat>)
    requires k < |ws| && IndicesOf(ws, order)
    ensures multiset(Picked(ws, Insert(ws, k, order))) == multiset(Picked(ws, order)) + multiset{ws[k]}
  {
    PickedCons(ws, k, order);
    if order != [] && !Before(ws, k, order[0]) {
      assert order == [order[0]] + order[1..];
      InsertPicked(ws, k, order[1..]);
      PickedCons(ws, order[0], order[1..]);
      PickedCons(ws, order[0], Insert(ws, k, order[1..]));
    }
  }

  /** Sorting the positions keeps the multiset of the widgets picked. */
  lemma {:induction false} SortPicked(ws: seq<Widget>, idx: seq<nat>)
    requires IndicesOf(ws, idx)
    ensures multiset(Picked(ws, SortIndices(ws, idx))) == multiset(Picked(ws, idx))
  {
    if idx != [] {
      SortPicked(ws, idx[1..]);
      InsertPicked(ws, idx[0], SortIndices(ws, idx[1..]));
      PickedCons(ws, idx[0], idx[1..]);
      assert idx == [idx[0]] + idx[1..];
    }
  }

  ghost predicate UniqueIds(ws: seq<Widget>) {
    forall i, j :: 0 <= i < j < |ws| ==> ws[i].id != ws[j].id
  }

  lemma ArrangeKeepsIds(ws: seq<Widget>)
    requires UniqueIds(ws)
    ensures UniqueIds(Arrange(ws))
  {
    SortSpec(ws, Indices(|ws|));
    var order := SortIndices(ws, Indices(|ws|));
    forall i, j | 0 <= i < j < |order| ensures ws[order[i]].id != ws[order[j]].id {
      assert order[i] != order[j];
    }
  }

  lemma {:induction false} SortOfSorted(ws: seq<Widget>, idx: seq<nat>)
    requires IndicesOf(ws, idx) && InOrder(ws, idx)
    ensures SortIndices(ws, idx) == idx
  {
    if idx != [] {
      SortOfSorted(ws, idx[1..]);
      assert idx == [idx[0]] + idx[1..];
      assert |idx| > 1 ==> Before(ws, idx[0], idx[1]);
    }
  }

  /** Sorting an already sorted layout changes nothing. */
  lemma ArrangeIdempotent(ws: seq<Widget>)
    ensures Arrange(Arrange(ws)) == Arrange(ws)
  {
    ArrangeSpec(ws);
    var r := Arrange(ws);
    var idx := Indices(|r|);
    forall i, j | 0 <= i < j < |idx| ensures Before(r, idx[i], idx[j]) {
      var a, b := r[i], r[j];
      assert a.y < b.y || (a.y == b.y && a.x <= b.x);
    }
    SortOfSorted(r, idx);
    assert Picked(r, idx) == r;
  }

  // ----- Pushing collisions down -----

  predicate Blocked(cand: seq<Widget>, placed: seq<nat>, w: Widget)
    requires IndicesOf(cand, placed)
  {
    exists i :: 0 <= i < |placed| && Overlaps(w, cand[placed[i]])
  }

  /** The lowest bottom edge among the placed widgets that w collides with, or w's own row. */
  function Bottom(cand: seq<Widget>, placed: seq<nat>, w: Widget): (y: int)
    requires IndicesOf(cand, placed)
    ensures y >= w.y
    ensures Blocked(cand, placed, w) ==> y > w.y
    ensures forall i :: 0 <= i < |placed| && Overlaps(w, cand[placed[i]]) ==>
                          cand[placed[i]].y + cand[placed[i]].h <= y
    ensures y == w.y || exists i :: 0 <= i < |placed| && Overlaps(w, cand[placed[i]]) &&
                                    y == cand[placed[i]].y + cand[placed[i]].h
  {
    if placed == [] then w.y
    else
      var last := cand[placed[|placed| - 1]];
      var rest := Bottom(cand, placed[..|placed| - 1], w);
      if Overlaps(w, last) && last.y + last.h > rest then last.y + last.h else rest
  }

  /** No widget among the placed ones reaches below this row. */
  function Floor(cand: seq<Widget>, placed: seq<nat>): (y: int)
    requires IndicesOf(cand, placed)
    ensures forall i :: 0 <= i < |placed| ==> cand[placed[i]].y + cand[placed[i]].h <= y
  {
    if placed == [] then 0
    else
      var last := cand[placed[|placed| - 1]];
      var rest := Floor(cand, placed[..|placed| - 1]);
      if last.y + last.h > rest then last.y + last.h else rest
  }

  /** Reference: try row after row until nothing placed is in the way. */
  function RowScan(cand: seq<Widget>, placed: seq<nat>, w: Widget): (r: Widget)
    requires IndicesOf(cand, placed)
    decreases Floor(cand, placed) - w.y
  {
    if !Blocked(cand, placed, w) then w else RowScan(cand, placed, w.(y := w.y + 1))
  }

  /** RowScan finds the least free row, and moves nothing but the row. */
  lemma {:induction false} RowScanLeast(cand: seq<Widget>, placed: seq<nat>, w: Widget)
    requires IndicesOf(cand, placed)
    ensures var r := RowScan(cand, placed, w);
            r == w.(y := r.y) && r.y >= w.y && !Blocked(cand, placed, r) &&
            forall row :: w.y <= row < r.y ==> Blocked(cand, placed, w.(y := row))
    decreases Floor(cand, placed) - w.y
  {
    if Blocked(cand, placed, w) {
      RowScanLeast(cand, placed, w.(y := w.y + 1));
      var r := RowScan(cand, placed, w.(y := w.y + 1));
      forall row | w.y <= row < r.y ensures Blocked(cand, placed, w.(y := row)) {
        if row == w.y {
          assert w.(y := row) == w;
        } else {
          assert w.(y := row) == w.(y := w.y + 1).(y := row);
        }
      }
    }
  }

  /** Rows skipped by one jump are all blocked, so a jump does not miss a free row. */
  lemma {:induction false} JumpMissesNothing(cand: seq<Widget>, placed: seq<nat>, w: Widget, row: int)
    requires IndicesOf(cand, placed) && w.y <= row <= Bottom(cand, placed, w)
    ensures RowScan(cand, placed, w) == RowScan(cand, placed, w.(y := row))
    decreases row - w.y
  {
    if row == w.y {
      assert w.(y := row) == w;
    } else {
      JumpMissesNothing(cand, placed, w, row - 1);
      var i :| 0 <= i < |placed| && Overlaps(w, cand[placed[i]]) &&
               Bottom(cand, placed, w) == cand[placed[i]].y + cand[placed[i]].h;
      assert Overlaps(w.(y := row - 1), cand[placed[i]]);
      assert w.(y := row - 1).(y := row) == w.(y := row);
    }
  }

  // ----- Moving one widget -----

  function Find(ws: seq<Widget>, id: string): (k: Option<nat>)
    ensures k.Some? ==> k.value < |ws| && ws[k.value].id == id && forall i :: 0 <= i < k.value ==> ws[i].id != id
    ensures k.None? ==> forall i :: 0 <= i < |ws| ==> ws[i].id != id
  {
    FindFrom(ws, id, 0)
  }

  function FindFrom(ws: seq<Widget>, id: string, n: nat): (k: Option<nat>)
    requires n <= |ws|
    ensures k.Some? ==> n <= k.value < |ws| && ws[k.value].id == id && forall i :: n <= i < k.value ==> ws[i].id != id
    ensures k.None? ==> forall i :: n <= i < |ws| ==> ws[i].id != id
    decreases |ws| - n
  {
    if n == |ws| then None else if ws[n].id == id then Some(n) else FindFrom(ws, id, n + 1)
  }

  /** Where the drop puts the widget, or None when the drop is refused. */
  function Landing(ws: seq<Widget>, m: Widget, d: Destination): (r: Option<Widget>)
    ensures r.Some? ==> r.value == m.(x := r.value.x, y := r.value.y)
    ensures r.Some? ==> 0 <= r.value.x && r.value.x + m.w <= COLUMNS && 0 <= r.value.y <= MAX_ROW
  {
    var spot: Option<(int, int)> :=
      match d
      case At(x, y) =>
        if x.Floor as real == x && y.Floor as real == y then Some((x.Floor, y.Floor)) else None
      case Beside(targetId, side) =>
        if targetId == "" || targetId == m.id || side !in ["before", "after"] then None
        else
          var t := Find(ws, targetId);
          if t.None? then None
          else
            var target := ws[t.value];
            var below := side == "after" && target.x + target.w + m.w > COLUMNS;
            var x := if below then 0 else if side == "after" then target.x + target.w else target.x;
            var y := if below then target.y + target.h else target.y;
            Some((if x + m.w > COLUMNS then COLUMNS - m.w else x, y));
    if spot.None? then None
    else
      var (x, y) := spot.value;
      if x < 0 || x + m.w > COLUMNS || y < 0 || y > MAX_ROW then None else Some(m.(x := x, y := y))
  }

  /** On a layout that fits the grid: "before" takes the target's place (or the last columns the widget
      fits in), "after" goes right of the target or, when the row is full, to column 0 right below it. */
  lemma DropBeside(ws: seq<Widget>, m: Widget, t: nat, side: string)
    requires t < |ws| && Find(ws, ws[t].id) == Some(t) && ws[t].id != "" && ws[t].id != m.id
    requires side == "before" || side == "after"
    requires 0 < m.w <= COLUMNS && 0 < m.h && 0 < ws[t].h
    requires 0 <= ws[t].x && 0 < ws[t].w && ws[t].x + ws[t].w <= COLUMNS && 0 <= ws[t].y <= MAX_ROW
    ensures var r, target := Landing(ws, m, Beside(ws[t].id, side)), ws[t];
            if side == "before" then
              r.Some? && r.value.y == target.y && Overlaps(r.value, target) &&
              (r.value.x == target.x || (r.value.x < target.x && r.value.x + m.w == COLUMNS))
            else if target.x + target.w + m.w <= COLUMNS then
              r.Some? && r.value.y == target.y && r.value.x == target.x + target.w
            else
              (r.None? <==> target.y + target.h > MAX_ROW) &&
              (r.Some? ==> r.value.x == 0 && r.value.y == target.y + target.h)
  {
  }

  /** The positions, in list order, of the widgets that do not carry the moved id. */
  function Others(ws: seq<Widget>, id: string, n: nat): (r: seq<nat>)
    requires n <= |ws|
    ensures forall i :: 0 <= i < |r| ==> r[i] < n && ws[r[i]].id != id
    ensures forall k: nat :: k < n && ws[k].id != id ==> k in r
    ensures forall i, j :: 0 <= i < j < |r| ==> r[i] < r[j]
  {
    if n == 0 then []
    else if ws[n - 1].id != id then Others(ws, id, n - 1) + [n - 1]
    else Others(ws, id, n - 1)
  }

  /** Reference for the placement loop: scan each remaining widget down past all placed ones. */
  function Settle(cand: seq<Widget>, placed: seq<nat>, rest: seq<nat>): (r: Option<seq<Widget>>)
    requires IndicesOf(cand, placed) && IndicesOf(cand, rest)
    decreases |rest|
  {
    if rest == [] then Some(cand)
    else
      var k := rest[0];
      var o := RowScan(cand, placed, cand[k]);
      if o.y > MAX_ROW && o.y != cand[k].y then None
      else Settle(cand[k := o], placed + [k], rest[1..])
  }

  /** The moved layout in list order, before the final sort. */
  function Moved(ws: seq<Widget>, id: string, d: Destination): (r: Option<seq<Widget>>) {
    var m := Find(ws, id);
    if m.None? then None
    else
      var landed := Landing(ws, ws[m.value], d);
      if landed.None? then None
      else
        var cand := ws[m.value := landed.value];
        Settle(cand, [m.value], SortIndices(cand, Others(cand, id, |cand|)))
  }

  function Relocated(ws: seq<Widget>, id: string, d: Destination): (r: Option<seq<Widget>>) {
    var out := Moved(ws, id, d);
    if out.None? then None else Some(Arrange(out.value))
  }

  /** The source's loop, jumping to the lowest blocker edge: it computes the row-by-row reference. */
  method Relocate(ws: seq<Widget>, id: string, d: Destination) returns (r: Option<seq<Widget>>)
    ensures r == Relocated(ws, id, d)
  {
    var found := Find(ws, id);
    if found.None? { return None; }
    var landed := Landing(ws, ws[found.value], d);
    if landed.None? { return None; }
    var candidate := ws[found.value := landed.value];
    var placed: seq<nat> := [found.value];
    var others := SortIndices(candidate, Others(candidate, id, |candidate|));
    ghost var start := candidate;
    var n := 0;
    while n < |others|
      invariant 0 <= n <= |others| && |candidate| == |start|
      invariant IndicesOf(candidate, placed) && IndicesOf(candidate, others)
      invariant Settle(start, [found.value], others) == Settle(candidate, placed, others[n..])
    {
      var k := others[n];
      var other := candidate[k];
      ghost var settled := RowScan(candidate, placed, other);
      while Blocked(candidate, placed, other)
        invariant IndicesOf(candidate, placed)
        invariant other == candidate[k].(y := other.y) && other.y >= candidate[k].y
        invariant RowScan(candidate, placed, other) == settled
        invariant other.y == candidate[k].y || other.y <= MAX_ROW
        decreases MAX_ROW + 1 - other.y
      {
        var y := Bottom(candidate, placed, other);
        JumpMissesNothing(candidate, placed, other, y);
        other := other.(y := y);
        if other.y > MAX_ROW {
          RowScanLeast(candidate, placed, other);
          return None;
        }
      }
      candidate := candidate[k := other];
      placed := placed + [k];
      n := n + 1;
    }
    return Some(Arrange(candidate));
  }

  // ----- What a move guarantees -----

  /** A settled widget sits in its first free row: nothing settled before it is in its way, and
      every row from its old one down to its new one was taken. */
  ghost predicate FirstFit(was: Widget, now: Widget, out: seq<Widget>, before: seq<nat>)
    requires IndicesOf(out, before)
  {
    && now == was.(y := now.y) && now.y >= was.y
    && !Blocked(out, before, now)
    && (forall row :: was.y <= row < now.y ==> Blocked(out, before, was.(y := row)))
    && (now.y == was.y || now.y <= MAX_ROW)
  }

  lemma DistinctApart(a: seq<nat>, b: seq<nat>)
    requires Distinct(a + b)
    ensures Distinct(b) && forall i :: 0 <= i < |a| ==> a[i] !in b
  {
    forall i, j | 0 <= i < j < |b| ensures b[i] != b[j] {
      assert (a + b)[|a| + i] == b[i] && (a + b)[|a| + j] == b[j];
    }
    forall i, j | 0 <= i < |a| && 0 <= j < |b| ensures a[i] != b[j] {
      assert (a + b)[i] == a[i] && (a + b)[|a| + j] == b[j];
    }
  }

  lemma {:induction false} SettleFrame(cand: seq<Widget>, placed: seq<nat>, rest: seq<nat>, out: seq<Widget>)
    requires IndicesOf(cand, placed) && IndicesOf(cand, rest) && Settle(cand, placed, rest) == Some(out)
    ensures |out| == |cand| && forall k :: 0 <= k < |cand| && k !in rest ==> out[k] == cand[k]
    decreases |rest|
  {
    if rest != [] {
      SettleFrame(cand[rest[0] := RowScan(cand, placed, cand[rest[0]])], placed + [rest[0]], rest[1..], out);
      assert forall k :: k in rest[1..] ==> k in rest;
    }
  }

  /** When settling fails, some widget had no free row left at or above the limit. */
  ghost predicate NoRoom(w: Widget, cand: seq<Widget>, placed: seq<nat>)
    requires IndicesOf(cand, placed)
  {
    Blocked(cand, placed, w) && forall row :: w.y <= row <= MAX_ROW ==> Blocked(cand, placed, w.(y := row))
  }

  lemma NoRoomIsTooLow(w: Widget, cand: seq<Widget>, placed: seq<nat>)
    requires IndicesOf(cand, placed)
    ensures NoRoom(w, cand, placed) <==>
            var r := RowScan(cand, placed, w); r.y > MAX_ROW && r.y != w.y
  {
    RowScanLeast(cand, placed, w);
    var r := RowScan(cand, placed, w);
    assert w.(y := w.y) == w;
    if r.y > MAX_ROW && r.y != w.y {
      assert Blocked(cand, placed, w.(y := w.y));
    }
  }

  lemma {:induction false} SettlePrefix(cand: seq<Widget>, placed: seq<nat>, rest: seq<nat>, n: nat)
    requires IndicesOf(cand, placed) && IndicesOf(cand, rest) && n <= |rest|
    ensures var part := Settle(cand, placed, rest[..n]);
            if part.None? then Settle(cand, placed, rest) == None
            else |part.value| == |cand| &&
                 Settle(cand, placed, rest) == Settle(part.value, placed + rest[..n], rest[n..])
    decreases n
  {
    if n == 0 {
      assert placed + rest[..0] == placed && rest[0..] == rest;
    } else {
      var k := rest[0];
      var o := RowScan(cand, placed, cand[k]);
      assert rest[..n][1..] == rest[1..][..n - 1];
      assert placed + [k] + rest[1..][..n - 1] == placed + rest[..n];
      assert rest[1..][n - 1..] == rest[n..];
      if !(o.y > MAX_ROW && o.y != cand[k].y) {
        SettlePrefix(cand[k := o], placed + [k], rest[1..], n - 1);
      }
    }
  }

  /** The j-th widget to settle finds no room once the ones before it have settled. */
  ghost predicate StuckAt(cand: seq<Widget>, placed: seq<nat>, rest: seq<nat>, j: nat)
    requires IndicesOf(cand, placed) && IndicesOf(cand, rest) && j < |rest|
  {
    SettlePrefix(cand, placed, rest, j);
    var part := Settle(cand, placed, rest[..j]);
    part.Some? && NoRoom(part.value[rest[j]], part.value, placed + rest[..j])
  }

  lemma {:induction false} SettleFails(cand: seq<Widget>, placed: seq<nat>, rest: seq<nat>)
    requires IndicesOf(cand, placed) && IndicesOf(cand, rest)
    ensures Settle(cand, placed, rest) == None <==>
            exists j :: 0 <= j < |rest| && StuckAt(cand, placed, rest, j)
  {
    if j :| 0 <= j < |rest| && StuckAt(cand, placed, rest, j) {
      SettlePrefix(cand, placed, rest, j);
      var part := Settle(cand, placed, rest[..j]).value;
      NoRoomIsTooLow(part[rest[j]], part, placed + rest[..j]);
      assert rest[j..][0] == rest[j];
    } else {
      var n := 0;
      while n < |rest|
        invariant 0 <= n <= |rest|
        invariant Settle(cand, placed, rest[..n]).Some?
      {
        SettlePrefix(cand, placed, rest[..n + 1], n);
        assert rest[..n + 1][..n] == rest[..n] && rest[..n + 1][n..] == [rest[n]];
        assert !StuckAt(cand, placed, rest, n);
        var part := Settle(cand, placed, rest[..n]).value;
        NoRoomIsTooLow(part[rest[n]], part, placed + rest[..n]);
        n := n + 1;
      }
      assert rest[..n] == rest;
    }
  }

  lemma BlockedSame(a: seq<Widget>, b: seq<Widget>, placed: seq<nat>)
    requires IndicesOf(a, placed) && IndicesOf(b, placed)
    requires forall i :: 0 <= i < |placed| ==> a[placed[i]] == b[placed[i]]
    ensures forall w :: Blocked(a, placed, w) == Blocked(b, placed, w)
  {
  }

  /** Every widget settles in its first free row, judged in the final layout. */
  lemma SettleFirstFit(cand: seq<Widget>, placed: seq<nat>, rest: seq<nat>, out: seq<Widget>, j: nat)
    requires IndicesOf(cand, placed) && IndicesOf(cand, rest) && Distinct(placed + rest)
    requires Settle(cand, placed, rest) == Some(out) && j < |rest|
    ensures |out| == |cand| && FirstFit(cand[rest[j]], out[rest[j]], out, placed + rest[..j])
  {
    var k, done, tail := rest[j], placed + rest[..j], rest[j..];
    SettlePrefix(cand, placed, rest, j);
    var part := Settle(cand, placed, rest[..j]).value;
    NthApart(placed, rest, j);
    SettleFrame(cand, placed, rest[..j], part);
    RowScanLeast(part, done, part[k]);
    SettleLater(part, done, tail, out);
  }

  /** The widget settled as the j-th is settled once, and none of those before it is settled again. */
  lemma NthApart(placed: seq<nat>, rest: seq<nat>, j: nat)
    requires Distinct(placed + rest) && j < |rest|
    ensures var done, tail := placed + rest[..j], rest[j..];
            && tail[0] == rest[j] && tail[0] !in tail[1..] && rest[j] !in rest[..j]
            && forall i :: 0 <= i < |done| ==> done[i] !in tail
  {
    var all, m := placed + rest, |placed| + j;
    forall i | 0 <= i < j ensures rest[..j][i] != rest[j] {
      assert all[|placed| + i] == rest[i] && all[m] == rest[j];
    }
    assert all[..m] == placed + rest[..j] && all[m..] == rest[j..];
    assert all[..m] + all[m..] == all;
    DistinctApart(all[..m], all[m..]);
    forall i | 0 < i < |rest| - j ensures rest[j..][i] != rest[j] {
      assert all[m + i] == rest[j..][i] && all[m] == rest[j];
    }
  }

  lemma SettleLater(part: seq<Widget>, done: seq<nat>, tail: seq<nat>, out: seq<Widget>)
    requires IndicesOf(part, done) && IndicesOf(part, tail) && |tail| > 0 && tail[0] !in tail[1..]
    requires forall i :: 0 <= i < |done| ==> done[i] !in tail
    requires Settle(part, done, tail) == Some(out)
    ensures |out| == |part| && out[tail[0]] == RowScan(part, done, part[tail[0]])
    ensures out[tail[0]].y <= MAX_ROW || out[tail[0]].y == part[tail[0]].y
    ensures forall w :: Blocked(part, done, w) == Blocked(out, done, w)
  {
    var k := tail[0];
    var o := RowScan(part, done, part[k]);
    SettleFrame(part[k := o], done + [k], tail[1..], out);
    SettleFrame(part, done, tail, out);
    BlockedSame(part, out, done);
  }

  // ----- Main results -----

  predicate HasId(ws: seq<Widget>, id: string, m: nat) {
    m < |ws| && ws[m].id == id && forall i :: 0 <= i < |ws| && i != m ==> ws[i].id != id
  }

  lemma OrderOfOthers(ws: seq<Widget>, id: string, m: nat)
    requires HasId(ws, id, m)
    ensures var order := SortIndices(ws, Others(ws, id, |ws|));
            && Distinct([m] + order) && InOrder(ws, order)
            && (forall k: nat :: k in order <==> k < |ws| && k != m)
  {
    var others := Others(ws, id, |ws|);
    SortSpec(ws, others);
    var order := SortIndices(ws, others);
    forall i | 0 <= i < |order| ensures order[i] != m {
      assert order[i] in others;
    }
    DistinctCons(m, order);
  }

  lemma DistinctCons(m: nat, order: seq<nat>)
    requires Distinct(order) && forall i :: 0 <= i < |order| ==> order[i] != m
    ensures Distinct([m] + order)
  {
    var all := [m] + order;
    forall i, j | 0 <= i < j < |all| ensures all[i] != all[j] {
      assert all[j] == order[j - 1] && (i > 0 ==> all[i] == order[i - 1]);
    }
  }

  /** A layout reached from ws by settling every widget but m, in the given order. */
  ghost predicate Settled(ws: seq<Widget>, out: seq<Widget>, m: nat, order: seq<nat>) {
    && |out| == |ws| && m < |ws| && IndicesOf(ws, order)
    && (forall k: nat :: k in order <==> k < |ws| && k != m)
    && (forall j :: 0 <= j < |order| ==> FirstFit(ws[order[j]], out[order[j]], out, [m] + order[..j]))
  }

  lemma SettledOverlapFree(ws: seq<Widget>, out: seq<Widget>, m: nat, order: seq<nat>)
    requires Settled(ws, out, m, order)
    ensures OverlapFree(out)
  {
    forall a: nat, b: nat | a < b < |out| ensures !Overlaps(out[a], out[b]) {
      if a == m {
        ApartFromEarlier(ws, out, m, order, b, a);
      } else if b == m {
        ApartFromEarlier(ws, out, m, order, a, b);
      } else {
        assert a in order && b in order;
        var i :| 0 <= i < |order| && order[i] == a;
        var j :| 0 <= j < |order| && order[j] == b;
        if i < j {
          ApartFromEarlier(ws, out, m, order, b, a);
        } else {
          ApartFromEarlier(ws, out, m, order, a, b);
        }
      }
    }
  }

  /** The order in which the other widgets settle: their reading order once the moved one is put down. */
  function SettleOrder(ws: seq<Widget>, id: string): (order: seq<nat>)
    ensures IndicesOf(ws, order)
  {
    SortIndices(ws, Others(ws, id, |ws|))
  }

  lemma SettleSettles(cand: seq<Widget>, m: nat, order: seq<nat>, out: seq<Widget>)
    requires m < |cand| && IndicesOf(cand, order) && Distinct([m] + order)
    requires forall k: nat :: k in order <==> k < |cand| && k != m
    requires Settle(cand, [m], order) == Some(out)
    ensures Settled(cand, out, m, order) && out[m] == cand[m]
  {
    SettleFrame(cand, [m], order, out);
    forall j | 0 <= j < |order|
      ensures FirstFit(cand[order[j]], out[order[j]], out, [m] + order[..j])
    {
      SettleFirstFit(cand, [m], order, out, j);
    }
  }

  /** A move puts the widget exactly where it landed and settles every other one, in reading order,
      in its first free row; nothing overlaps afterwards. */
  lemma MovedSpec(ws: seq<Widget>, id: string, d: Destination, m: nat)
    requires HasId(ws, id, m) && Moved(ws, id, d).Some?
    ensures Landing(ws, ws[m], d).Some?
    ensures var out, cand := Moved(ws, id, d).value, ws[m := Landing(ws, ws[m], d).value];
            && Settled(cand, out, m, SettleOrder(cand, id)) && out[m] == cand[m]
            && InOrder(cand, SettleOrder(cand, id)) && OverlapFree(out)
  {
    assert Find(ws, id) == Some(m);
    var cand := ws[m := Landing(ws, ws[m], d).value];
    OrderOfOthers(cand, id, m);
    SettleSettles(cand, m, SettleOrder(cand, id), Moved(ws, id, d).value);
    SettledOverlapFree(cand, Moved(ws, id, d).value, m, SettleOrder(cand, id));
  }

  lemma ApartFromEarlier(ws: seq<Widget>, out: seq<Widget>, m: nat, order: seq<nat>, late: nat, early: nat)
    requires |out| == |ws| && m < |ws| && IndicesOf(ws, order)
    requires forall j :: 0 <= j < |order| ==> FirstFit(ws[order[j]], out[order[j]], out, [m] + order[..j])
    requires late in order && early < |ws|
    requires early == m || exists i, j :: 0 <= i < j < |order| && order[i] == early && order[j] == late
    ensures !Overlaps(out[late], out[early]) && !Overlaps(out[early], out[late])
  {
    if early == m {
      var j :| 0 <= j < |order| && order[j] == late;
      assert ([m] + order[..j])[0] == m;
    } else {
      var i, j :| 0 <= i < j < |order| && order[i] == early && order[j] == late;
      assert ([m] + order[..j])[i + 1] == early;
    }
  }

  ghost predicate SameShape(a: Widget, b: Widget) {
    a == b.(x := a.x, y := a.y)
  }

  ghost predicate ReadingOrder(ws: seq<Widget>) {
    forall i, j :: 0 <= i < j < |ws| ==> ws[i].y < ws[j].y || (ws[i].y == ws[j].y && ws[i].x <= ws[j].x)
  }

  ghost predicate PushedDown(w: Widget, r: Widget) {
    r == w.(y := r.y) && r.y >= w.y && (r.y == w.y || r.y <= MAX_ROW)
  }

  lemma SettledPushes(cand: seq<Widget>, out: seq<Widget>, m: nat, order: seq<nat>, k: nat)
    requires Settled(cand, out, m, order) && k < |cand| && k != m
    ensures PushedDown(cand[k], out[k])
  {
    assert k in order;
    var j :| 0 <= j < |order| && order[j] == k;
    assert FirstFit(cand[order[j]], out[order[j]], out, [m] + order[..j]);
  }

  /** What the editor receives: the same widgets, none overlapping, in reading order; the moved one
      at its landing; every other in its old column, not higher, and never pushed past row 240. */
  lemma RelocateSpec(ws: seq<Widget>, id: string, d: Destination, m: nat)
    requires HasId(ws, id, m) && Relocated(ws, id, d).Some?
    ensures Landing(ws, ws[m], d).Some? && Moved(ws, id, d).Some?
    ensures var r, out := Relocated(ws, id, d).value, Moved(ws, id, d).value;
            && OverlapFree(r) && ReadingOrder(r) && |out| == |ws| && multiset(r) == multiset(out)
            && out[m] == Landing(ws, ws[m], d).value
            && (forall k :: 0 <= k < |ws| ==> SameShape(out[k], ws[k]))
            && (forall k :: 0 <= k < |ws| && k != m ==>
                              out[k].x == ws[k].x && out[k].y >= ws[k].y && (out[k].y == ws[k].y || out[k].y <= MAX_ROW))
  {
    MovedSpec(ws, id, d, m);
    var out := Moved(ws, id, d).value;
    var cand := ws[m := Landing(ws, ws[m], d).value];
    var order := SettleOrder(cand, id);
    ArrangeSpec(out);
    forall k: nat | k < |ws| && k != m ensures PushedDown(ws[k], out[k]) {
      SettledPushes(cand, out, m, order, k);
    }
  }

  /** A move is refused exactly when the widget is unknown, the drop itself is refused, or some other
      widget, taken in reading order after the earlier ones settled, has no free row up to 240. */
  lemma RelocateRefused(ws: seq<Widget>, id: string, d: Destination)
    ensures Relocated(ws, id, d) == None <==>
            var m := Find(ws, id);
            m.None? || Landing(ws, ws[m.value], d).None? ||
            var cand := ws[m.value := Landing(ws, ws[m.value], d).value];
            exists j :: 0 <= j < |SettleOrder(cand, id)| && StuckAt(cand, [m.value], SettleOrder(cand, id), j)
  {
    var m := Find(ws, id);
    if m.Some? && Landing(ws, ws[m.value], d).Some? {
      var cand := ws[m.value := Landing(ws, ws[m.value], d).value];
      SettleFails(cand, [m.value], SettleOrder(cand, id));
    }
  }

  lemma {:induction false} SettleStill(cand: seq<Widget>, placed: seq<nat>, rest: seq<nat>)
    requires IndicesOf(cand, placed) && IndicesOf(cand, rest) && Distinct(placed + rest) && OverlapFree(cand)
    ensures Settle(cand, placed, rest) == Some(cand)
    decreases |rest|
  {
    if rest != [] {
      var k := rest[0];
      DistinctApart(placed, rest);
      forall i | 0 <= i < |placed| ensures !Overlaps(cand[k], cand[placed[i]]) {
        assert placed[i] != k;
      }
      assert cand[k := cand[k]] == cand;
      assert placed + [k] + rest[1..] == placed + rest;
      SettleStill(cand, placed + [k], rest[1..]);
    }
  }

  /** Dropping a widget of an overlap-free layout where it already is only sorts the list. */
  lemma DropInPlace(ws: seq<Widget>, id: string, m: nat)
    requires HasId(ws, id, m) && OverlapFree(ws)
    requires 0 <= ws[m].x && ws[m].x + ws[m].w <= COLUMNS && 0 <= ws[m].y <= MAX_ROW
    ensures Relocated(ws, id, At(ws[m].x as real, ws[m].y as real)) == Some(Arrange(ws))
  {
    assert Find(ws, id) == Some(m);
    assert ws[m := ws[m]] == ws;
    LandsInPlace(ws, ws[m]);
    OrderOfOthers(ws, id, m);
    SettleStill(ws, [m], SettleOrder(ws, id));
  }

  lemma LandsInPlace(ws: seq<Widget>, w: Widget)
    requires 0 <= w.x && w.x + w.w <= COLUMNS && 0 <= w.y <= MAX_ROW
    ensures Landing(ws, w, At(w.x as real, w.y as real)) == Some(w)
  {
  }

  /** The moved id must be unique: a second widget carrying it is never put down, so it can be covered.
      (The portal refuses to store layouts with a repeated id.) */
  lemma RepeatedIdCanOverlap()
    ensures var ws := [Widget("a", 0, 0, 3, 2, ""), Widget("a", 0, 2, 3, 2, "")];
            var r := Relocated(ws, "a", At(0.0, 2.0));
            r.Some? && |r.value| == 2 && Overlaps(r.value[0], r.value[1])
  {
    var ws := [Widget("a", 0, 0, 3, 2, ""), Widget("a", 0, 2, 3, 2, "")];
    var low := Widget("a", 0, 2, 3, 2, "");
    assert Find(ws, "a") == Some(0);
    assert Landing(ws, ws[0], At(0.0, 2.0)) == Some(low);
    var cand := ws[0 := low];
    assert cand == [low, low];
    assert Others(cand, "a", 0) == [] && Others(cand, "a", 1) == [] && Others(cand, "a", 2) == [];
    ArrangeSpec(cand);
    assert Arrange(cand)[0] in cand && Arrange(cand)[1] in cand;
  }

  // ----- Resizing or placing one widget without pushing (the corner handle) -----

  /** The fields a placement may override; the source merges the given ones into the widget. */
  datatype Change = Change(x: Option<int>, y: Option<int>, w: Option<int>, h: Option<int>)

  function GetOr(o: Option<int>, d: int): int {
    if o.Some? then o.value else d
  }

  function Applied(w: Widget, c: Change): Widget {
    w.(x := GetOr(c.x, w.x), y := GetOr(c.y, w.y), w := GetOr(c.w, w.w), h := GetOr(c.h, w.h))
  }

  predicate Fits(w: Widget) {
    0 <= w.x && 0 <= w.y <= MAX_ROW && w.x + w.w <= COLUMNS && w.w in {3, 6, 12} && 2 <= w.h <= 8
  }

  function Place(ws: seq<Widget>, id: string, c: Change): (r: Option<seq<Widget>>) {
    var m := Find(ws, id);
    if m.None? then None
    else
      var w := Applied(ws[m.value], c);
      if !Fits(w) || exists k :: 0 <= k < |ws| && ws[k].id != id && Overlaps(w, ws[k]) then None
      else Some(Arrange(ws[m.value := w]))
  }

  /** On an overlap-free layout a placement succeeds exactly when the changed widget fits the grid and
      the layout stays overlap-free; it then changes that widget alone. */
  lemma PlaceSpec(ws: seq<Widget>, id: string, c: Change, m: nat)
    requires HasId(ws, id, m) && OverlapFree(ws)
    ensures var next := ws[m := Applied(ws[m], c)];
            && (Place(ws, id, c).Some? <==> Fits(next[m]) && OverlapFree(next))
            && (Place(ws, id, c).Some? ==>
                  multiset(Place(ws, id, c).value) == multiset(next)
                  && OverlapFree(Place(ws, id, c).value) && ReadingOrder(Place(ws, id, c).value))
  {
    assert Find(ws, id) == Some(m);
    var w := Applied(ws[m], c);
    var next := ws[m := w];
    ArrangeSpec(next);
    if k :| 0 <= k < |ws| && ws[k].id != id && Overlaps(w, ws[k]) {
      assert next[k] == ws[k] && next[m] == w;
      assert Overlaps(next[m], next[k]) && Overlaps(next[k], next[m]);
    } else {
      assert forall k :: 0 <= k < |ws| && k != m ==> ws[k].id != id;
    }
  }

  // ----- Reflowing the whole layout -----

  datatype Shelf = Shelf(x: int, y: int, height: int)

  /** Where the next widget goes and the shelf after it: start a new shelf when the row is full. */
  function Next(s: Shelf, w: Widget): (Widget, Shelf) {
    var t := if s.x + w.w > COLUMNS then Shelf(0, s.y + s.height, 0) else s;
    (w.(x := t.x, y := t.y), Shelf(t.x + w.w, t.y, if t.height > w.h then t.height else w.h))
  }

  function ShelfAfter(ws: seq<Widget>): Shelf {
    if ws == [] then Shelf(0, 0, 0)
    else Next(ShelfAfter(ws[..|ws| - 1]), ws[|ws| - 1]).1
  }

  function Compacted(ws: seq<Widget>): (r: seq<Widget>)
    ensures |r| == |ws|
  {
    if ws == [] then []
    else Compacted(ws[..|ws| - 1]) + [Next(ShelfAfter(ws[..|ws| - 1]), ws[|ws| - 1]).0]
  }

  lemma PackedNext(ws: seq<Widget>, i: nat)
    requires i < |ws|
    ensures Compacted(ws[..i + 1]) == Compacted(ws[..i]) + [Next(ShelfAfter(ws[..i]), ws[i]).0]
    ensures ShelfAfter(ws[..i + 1]) == Next(ShelfAfter(ws[..i]), ws[i]).1
  {
    assert ws[..i + 1][..i] == ws[..i];
  }

  /** The source's in-place pass over the widget array. */
  method Compact(a: array<Widget>)
    modifies a
    ensures a[..] == Compacted(old(a[..]))
  {
    var x, y, height := 0, 0, 0;
    ghost var was := a[..];
    for i := 0 to a.Length
      invariant PackedTo(a[..], was, i) && Shelf(x, y, height) == ShelfAfter(was[..i])
    {
      PackedNext(was, i);
      var w := a[i];
      if x + w.w > COLUMNS {
        x, y, height := 0, y + height, 0;
      }
      ghost var before := a[..];
      a[i] := w.(x := x, y := y);
      assert a[..] == before[i := a[i]];
      x := x + w.w;
      height := if height > w.h then height else w.h;
      PackedMore(before, was, i, a[i]);
    }
    PackedWhole(a[..], was);
  }

  /** The first i widgets are packed, the others are as before. */
  ghost predicate PackedTo(ws: seq<Widget>, was: seq<Widget>, i: nat) {
    && i <= |was| == |ws|
    && (forall j :: 0 <= j < i ==> ws[j] == Compacted(was[..i])[j])
    && (forall j :: i <= j < |was| ==> ws[j] == was[j])
  }

  lemma PackedMore(ws: seq<Widget>, was: seq<Widget>, i: nat, w: Widget)
    requires i < |was| && PackedTo(ws, was, i) && w == Next(ShelfAfter(was[..i]), was[i]).0
    ensures PackedTo(ws[i := w], was, i + 1)
  {
    PackedNext(was, i);
  }

  lemma PackedWhole(ws: seq<Widget>, was: seq<Widget>)
    requires PackedTo(ws, was, |was|)
    ensures ws == Compacted(was)
  {
    assert was[..|was|] == was;
  }

  predicate Sized(ws: seq<Widget>) {
    forall i :: 0 <= i < |ws| ==> 0 < ws[i].w <= COLUMNS && 0 < ws[i].h
  }

  /** A packed widget: inside the columns, above the shelf or on it left of the free part. */
  predicate AboveShelf(w: Widget, s: Shelf) {
    && 0 <= w.x && w.x + w.w <= COLUMNS && 0 <= w.y && w.y + w.h <= s.y + s.height
    && (w.y + w.h <= s.y || (w.y == s.y && w.x + w.w <= s.x))
  }

  lemma PackOne(r: seq<Widget>, s: Shelf, w: Widget)
    requires OverlapFree(r) && ReadingOrder(r) && forall i :: 0 <= i < |r| ==> AboveShelf(r[i], s) && 0 < r[i].w && 0 < r[i].h
    requires 0 <= s.x <= COLUMNS && 0 <= s.y && 0 <= s.height && 0 < w.w <= COLUMNS && 0 < w.h
    ensures var (v, t) := Next(s, w);
            && OverlapFree(r + [v]) && ReadingOrder(r + [v])
            && (forall i :: 0 <= i < |r| ==> AboveShelf(r[i], t)) && AboveShelf(v, t)
            && 0 <= t.x <= COLUMNS && 0 <= t.y && 0 <= t.height
  {
    var (v, t) := Next(s, w);
    forall i | 0 <= i < |r| ensures !Overlaps(r[i], v) && AboveShelf(r[i], t) && (r[i].y < v.y || (r[i].y == v.y && r[i].x <= v.x)) {
      assert AboveShelf(r[i], s);
    }
  }

  /** Shelf packing: list order is kept, nothing overlaps, every widget lies within the 12 columns and
      above the end of the last shelf. */
  lemma {:induction false} CompactSpec(ws: seq<Widget>)
    requires Sized(ws)
    ensures var r, s := Compacted(ws), ShelfAfter(ws);
            && OverlapFree(r) && ReadingOrder(r)
            && (forall i :: 0 <= i < |ws| ==> SameShape(r[i], ws[i]) && AboveShelf(r[i], s))
            && 0 <= s.x <= COLUMNS && 0 <= s.y && 0 <= s.height
  {
    if ws != [] {
      var n := |ws| - 1;
      CompactSpec(ws[..n]);
      var s := ShelfAfter(ws);
      forall i | 0 <= i < n ensures 0 < Compacted(ws[..n])[i].w && 0 < Compacted(ws[..n])[i].h {
        assert SameShape(Compacted(ws[..n])[i], ws[..n][i]);
      }
      PackOne(Compacted(ws[..n]), ShelfAfter(ws[..n]), ws[n]);
      forall i | 0 <= i < |ws| ensures SameShape(Compacted(ws)[i], ws[i]) && AboveShelf(Compacted(ws)[i], s) {
        assert i < n ==> SameShape(Compacted(ws[..n])[i], ws[..n][i]);
      }
    }
  }

  lemma {:induction false} CompactKeepsShelf(ws: seq<Widget>, vs: seq<Widget>)
    requires |ws| == |vs| && forall i :: 0 <= i < |ws| ==> SameShape(ws[i], vs[i])
    ensures ShelfAfter(ws) == ShelfAfter(vs) && Compacted(ws) == Compacted(vs)
  {
    if ws != [] {
      CompactKeepsShelf(ws[..|ws| - 1], vs[..|vs| - 1]);
    }
  }

  /** Reflowing depends on sizes and order alone, so doing it twice changes nothing. */
  lemma CompactIdempotent(ws: seq<Widget>)
    requires Sized(ws)
    ensures Compacted(Compacted(ws)) == Compacted(ws)
  {
    CompactSpec(ws);
    CompactKeepsShelf(Compacted(ws), ws);
  }

  /** Rows grow by at most the tallest widget per entry: a full board of 24 stays far above row 240. */
  lemma {:induction false} CompactDepth(ws: seq<Widget>, tallest: nat)
    requires Sized(ws) && forall i :: 0 <= i < |ws| ==> ws[i].h <= tallest
    ensures ShelfAfter(ws).y + ShelfAfter(ws).height <= tallest * |ws|
    ensures ShelfAfter(ws).height <= tallest
  {
    if ws != [] {
      CompactDepth(ws[..|ws| - 1], tallest);
      OneMore(tallest, |ws|);
    }
  }

  lemma OneMore(t: nat, n: nat)
    requires n > 0
    ensures t * n == t * (n - 1) + t
  {
  }
}
